/** One discovery: its requests, the strings it has fetched, and what it has given up on. */
module Discovery {
  import opened Prelude
  import opened Tab
  import opened WaiterLog
  import opened Waiters
  import opened Requests
  import opened Strings

  /** Fetches of a string id that may go wholly unanswered before it is not asked for again. */
  const UNANSWERED_STR_LIMIT: nat := 2

  function ChunkKey(id: Id, seqNo: byte): string {
    Key(id.0, Chunk(id.1, seqNo))
  }

  function ReqOf(addr: Addr, r: Request): Req {
    Req(Key(addr, r), Encode(addr, r))
  }

  function Count<K>(m: map<K, nat>, k: K): nat {
    if k in m then m[k] else 0
  }

  /** Every payload that can arrive for a string is the chunk of this text that was asked for. */
  ghost predicate Tells(allowed: (string, Bytes) -> bool, id: Id, text: Bytes) {
    forall seqNo: byte, d: Bytes :: allowed(ChunkKey(id, seqNo), d) ==> d == ChunkReply(id.1, seqNo, text)
  }

  /** A string id that never answered its first chunk was asked for it in full each time, and for no other. */
  ghost predicate InBudget(h: Log, start: nat, id: Id, misses: nat, retries: nat) {
    misses <= UNANSWERED_STR_LIMIT &&
    (!TraceOf(h, start, ChunkKey(id, 0)).answered ==>
      TraceOf(h, start, ChunkKey(id, 0)).sends == misses * retries &&
      forall q: byte | q > 0 :: TraceOf(h, start, ChunkKey(id, q)).sends == 0)
  }

  /** No discovery key is registered. */
  ghost predicate Idle(h: Log) {
    forall k :: !Foreign(k) ==> SlotOf(h, k).None?
  }

  lemma IdleIsFree(h: Log)
    requires Idle(h)
    ensures NestedFree(h)
  {
    forall k | Nested(k)
      ensures !Registers(h, k)
    {
      NestedIsOurs(k);
    }
  }

  /** How often a request is sent before its key is given up: a property or a label may be asked only once,
      anything else is asked with all retries. */
  function Attempts(k: string, retries: nat): nat {
    if IsPropertyKey(k) && retries > 0 then 1 else retries
  }

  /** A request was sent in full, and waited for in vain. */
  predicate TriedInFull(t: Trace, k: string, retries: nat) {
    t.sends >= Attempts(k, retries) && (retries == 0 || t.missed)
  }

  /** Every key given up on was asked in full, and waited for in vain. */
  ghost predicate Honest(h: Log, start: nat, retries: nat, gaveUp: set<string>) {
    forall k :: k in gaveUp ==> TriedInFull(TraceOf(h, start, k), k, retries)
  }

  ghost predicate Budgets(h: Log, start: nat, retries: nat, gaveUp: set<string>, unanswered: map<Id, nat>) {
    forall id: Id ::
      InBudget(h, start, id, Count(unanswered, id), retries) &&
      (Count(unanswered, id) > 0 ==> ChunkKey(id, 0) in gaveUp)
  }

  ghost predicate LogOk(h: Log, start: nat, retries: nat, gaveUp: set<string>, unanswered: map<Id, nat>) {
    start <= |h| && Idle(h) && Honest(h, start, retries, gaveUp) && Budgets(h, start, retries, gaveUp, unanswered)
  }

  lemma Later(h: Log, h': Log, n: nat, k: string)
    requires Extends(h, h') && n <= |h|
    ensures TraceOf(h, n, k).missed || TraceOf(h', |h|, k).missed <==> TraceOf(h', n, k).missed
    ensures TraceOf(h, n, k).answered || TraceOf(h', |h|, k).answered <==> TraceOf(h', n, k).answered
    ensures TraceOf(h', n, k).sends == TraceOf(h, n, k).sends + TraceOf(h', |h|, k).sends
  {
    TraceSplit(h', n, |h|, k);
  }

  lemma IdleKept(h: Log, h': Log, keys: set<string>)
    requires Idle(h) && Touches(h, h', keys)
    requires forall k :: k in keys ==> SlotOf(h', k).None?
    ensures Idle(h')
  {
  }

  lemma HonestKept(h: Log, h': Log, start: nat, retries: nat, gaveUp: set<string>, more: set<string>)
    requires start <= |h| && Extends(h, h') && Honest(h, start, retries, gaveUp)
    requires forall k :: k in more ==> TriedInFull(TraceOf(h', |h|, k), k, retries)
    ensures Honest(h', start, retries, gaveUp + more)
  {
    forall k | k in gaveUp + more
      ensures TriedInFull(TraceOf(h', start, k), k, retries)
    {
      Later(h, h', start, k);
    }
  }

  /** Requests other than for strings leave the string budgets alone. */
  lemma BudgetsKept(h: Log, h': Log, keys: set<string>, start: nat, retries: nat,
                    gaveUp: set<string>, more: set<string>, unanswered: map<Id, nat>)
    requires start <= |h| && Touches(h, h', keys) && Budgets(h, start, retries, gaveUp, unanswered)
    requires forall k :: k in keys ==> !IsChunkKey(k)
    ensures Budgets(h', start, retries, gaveUp + more, unanswered)
  {
    forall id: Id
      ensures InBudget(h', start, id, Count(unanswered, id), retries)
    {
      assert InBudget(h, start, id, Count(unanswered, id), retries);
      forall q: byte
        ensures TraceOf(h', start, ChunkKey(id, q)) == TraceOf(h, start, ChunkKey(id, q))
      {
        KeyFamily(id.0, Chunk(id.1, q));
        assert Untouched(h, h', ChunkKey(id, q));
      }
    }
  }

  lemma LogOkKept(h: Log, h': Log, keys: set<string>, start: nat, retries: nat,
                  gaveUp: set<string>, more: set<string>, unanswered: map<Id, nat>)
    requires LogOk(h, start, retries, gaveUp, unanswered) && Touches(h, h', keys)
    requires forall k :: k in keys ==> !IsChunkKey(k) && SlotOf(h', k).None?
    requires forall k :: k in more ==> TriedInFull(TraceOf(h', |h|, k), k, retries)
    ensures LogOk(h', start, retries, gaveUp + more, unanswered)
  {
    IdleKept(h, h', keys);
    HonestKept(h, h', start, retries, gaveUp, more);
    BudgetsKept(h, h', keys, start, retries, gaveUp, more, unanswered);
  }

  /** Metadata retries of one op, or of silent fields in a row, that may go unanswered on a device. */
  const UNANSWERED_META_LIMIT: nat := 2

  /** The metadata ops of a field, in the order they are asked. */
  const META_OPS: seq<byte> := [OP_NAME, OP_VIZ, OP_MAX, OP_UNIT, OP_WRITEABLE]

  function SumMisses(opMisses: map<(Addr, byte), nat>, addr: Addr): nat {
    Count(opMisses, (addr, OP_NAME)) + Count(opMisses, (addr, OP_VIZ)) + Count(opMisses, (addr, OP_MAX))
    + Count(opMisses, (addr, OP_UNIT)) + Count(opMisses, (addr, OP_WRITEABLE))
  }

  function ReqsOf(targets: seq<(Addr, Request)>): (reqs: seq<Req>)
    ensures |reqs| == |targets| && forall i :: 0 <= i < |reqs| ==> reqs[i] == ReqOf(targets[i].0, targets[i].1)
  {
    seq(|targets|, i requires 0 <= i < |targets| => ReqOf(targets[i].0, targets[i].1))
  }

  /** The keys of the targets that were not answered. */
  function Lost(targets: seq<(Addr, Request)>, out: seq<Option<Bytes>>): set<string>
    requires |out| == |targets|
  {
    set i | 0 <= i < |targets| && out[i].None? :: Key(targets[i].0, targets[i].1)
  }

  /** So many tries are all that these requests are given. */
  predicate InFull(targets: seq<(Addr, Request)>, tries: nat, retries: nat) {
    tries == retries ||
    forall i :: 0 <= i < |targets| ==>
      if targets[i].1.FieldProperty? || targets[i].1.OptionLabel? then tries >= 1 else tries >= retries
  }

  predicate Asks(targets: seq<(Addr, Request)>) {
    Distinct(targets) && forall i :: 0 <= i < |targets| ==> !targets[i].1.Value?
  }

  lemma TargetKeys(targets: seq<(Addr, Request)>)
    requires Asks(targets)
    ensures Requests.Discovery(KeysOf(ReqsOf(targets)))
    ensures forall k :: k in SetOf(KeysOf(ReqsOf(targets))) ==>
      exists i :: 0 <= i < |targets| && k == Key(targets[i].0, targets[i].1)
    ensures (forall i :: 0 <= i < |targets| ==> !targets[i].1.Chunk?) ==>
      forall k :: k in SetOf(KeysOf(ReqsOf(targets))) ==> !IsChunkKey(k)
  {
    var keys := KeysOf(ReqsOf(targets));
    forall i, j | 0 <= i < j < |targets|
      ensures keys[i] != keys[j]
    {
      if keys[i] == keys[j] {
        KeyInjective(targets[i].0, targets[i].1, targets[j].0, targets[j].1);
      }
    }
    forall i | 0 <= i < |targets|
      ensures !Foreign(keys[i]) && (IsChunkKey(keys[i]) <==> targets[i].1.Chunk?)
    {
      KeyFamily(targets[i].0, targets[i].1);
    }
  }

  /** The replies are in the order of the targets; each was asked at most `retries` times, never again once
      answered, and got exactly what its last wait found. */
  ghost predicate Replied(w: Waiter, n: nat, targets: seq<(Addr, Request)>, out: seq<Option<Bytes>>, retries: nat)
    reads w
  {
    |out| == |targets| &&
    forall i :: 0 <= i < |targets| ==>
      Asked(w, n, Key(targets[i].0, targets[i].1), out[i], retries) &&
      (out[i].Some? ==> Heard(w.log, n, Key(targets[i].0, targets[i].1), out[i].value))
  }

  /** A request that was sent and waited for once. */
  lemma OnceOver(h: Log, h': Log, k: string, r: Option<Bytes>)
    requires Extends(h, h') && ExchangedFor(h, h', k, r, false) && SlotOf(h, k).None?
    ensures Asked'(h', |h|, k, r, 1) && !Registers(h', k)
    ensures r.None? ==> TraceOf(h', |h|, k).missed
    ensures r.Some? ==> Heard(h', |h|, k, r.value)
  {
    assert TraceOf(h, |h|, k) == NOTHING && h'[..|h|] == h;
    if r.Some? {
      GotWasHeard(h', |h|, k);
    }
  }

  /** What was given up was waited for once more after its attempts. */
  ghost predicate Unhurried(h: Log, n: nat, targets: seq<(Addr, Request)>, out: seq<Option<Bytes>>)
    requires |out| == |targets|
  {
    forall i :: 0 <= i < |targets| && out[i].None? ==> Patient(h, n, Key(targets[i].0, targets[i].1))
  }

  class Disc {
    const waiter: Waiter
    const retries: nat
    /** The device's bundled string table, when one was resolved. */
    const catalog: Option<map<Word, Bytes>>
    /** The devices' string tables, as far as a device answers from one. */
    ghost const text: Id -> Bytes
    /** Strings that came back whole. */
    var known: map<Id, Bytes>
    /** Fetches of a string id that went wholly unanswered. */
    var unanswered: map<Id, nat>
    /** Per op, retries left out by a field that answered other ops. */
    var opMisses: map<(Addr, byte), nat>
    /** Fields in a row whose retry got no answer at all. */
    var silent: map<Addr, nat>
    /** Where this discovery starts in the waiter's history. */
    ghost const start: nat
    /** Keys whose request was given up, finally or for that call. */
    ghost var gaveUp: set<string>
    /** Per device, retry batches on partly answered fields that left an op unanswered. */
    ghost var leftOut: map<Addr, nat>

    ghost predicate Valid()
      reads this, waiter
    {
      waiter.Valid() && LogOk(waiter.log, start, retries, gaveUp, unanswered) && KnownWhole() && MissesBounded()
    }

    /** The memo only ever holds whole strings. */
    ghost predicate KnownWhole()
      reads this, waiter
    {
      forall id | id in known && Tells(waiter.allowed, id, text(id)) :: known[id] == Whole(text(id))
    }

    ghost predicate MissesBounded()
      reads this
    {
      (forall k :: Count(opMisses, k) <= UNANSWERED_META_LIMIT) &&
      (forall a :: Count(silent, a) <= UNANSWERED_META_LIMIT) &&
      (forall a :: Count(leftOut, a) <= SumMisses(opMisses, a))
    }

    constructor (waiter: Waiter, retries: nat, catalog: Option<map<Word, Bytes>>, ghost text: Id -> Bytes)
      requires waiter.Valid() && Idle(waiter.log)
      ensures Valid() && this.waiter == waiter && this.retries == retries && this.catalog == catalog && this.text == text
      ensures gaveUp == {} && known == map[] && start == |waiter.log|
    {
      this.waiter := waiter;
      this.retries := retries;
      this.catalog := catalog;
      this.text := text;
      known, unanswered, opMisses, silent := map[], map[], map[], map[];
      start, gaveUp, leftOut := |waiter.log|, {}, map[];
    }

    lemma Unregistered(targets: seq<(Addr, Request)>)
      requires waiter.Valid() && Idle(waiter.log) && Asks(targets)
      ensures NestedFree(waiter.log)
      ensures forall i :: 0 <= i < |targets| ==> Key(targets[i].0, targets[i].1) !in waiter.slots
    {
      IdleIsFree(waiter.log);
      forall i | 0 <= i < |targets|
        ensures Key(targets[i].0, targets[i].1) !in waiter.slots
      {
        KeyFamily(targets[i].0, targets[i].1);
        assert SlotOf(waiter.log, Key(targets[i].0, targets[i].1)) == waiter.Lookup(Key(targets[i].0, targets[i].1));
      }
    }

    /** Keys that are not in the waiter's map are free in its history. */
    lemma Freed(targets: seq<(Addr, Request)>)
      requires waiter.Valid() && Asks(targets)
      requires forall i :: 0 <= i < |targets| ==> Key(targets[i].0, targets[i].1) !in waiter.slots
      ensures forall k :: k in SetOf(KeysOf(ReqsOf(targets))) ==> SlotOf(waiter.log, k).None?
    {
      TargetKeys(targets);
      forall k | k in SetOf(KeysOf(ReqsOf(targets)))
        ensures SlotOf(waiter.log, k).None?
      {
        var i :| 0 <= i < |targets| && k == Key(targets[i].0, targets[i].1);
        assert SlotOf(waiter.log, k) == waiter.Lookup(k);
      }
    }

    /** What is left of a batch that asked in full: its keys are free, and the unanswered ones tried in full. */
    ghost predicate LeftInFull(n: nat, targets: seq<(Addr, Request)>, out: seq<Option<Bytes>>)
      reads waiter
    {
      |out| == |targets| &&
      forall i :: 0 <= i < |targets| ==>
        var k := Key(targets[i].0, targets[i].1);
        k !in waiter.slots && (out[i].None? ==> TriedInFull(TraceOf(waiter.log, n, k), k, retries))
    }

    lemma AskedInFull(n: nat, targets: seq<(Addr, Request)>, out: seq<Option<Bytes>>, tries: nat)
      requires |out| == |targets| && InFull(targets, tries, retries)
      requires forall i :: 0 <= i < |targets| ==>
        var k := Key(targets[i].0, targets[i].1);
        k !in waiter.slots && Asked(waiter, n, k, out[i], tries) &&
        (out[i].None? ==> retries == 0 || TraceOf(waiter.log, n, k).missed)
      ensures LeftInFull(n, targets, out)
    {
      forall i | 0 <= i < |targets|
        ensures var k := Key(targets[i].0, targets[i].1);
          out[i].None? ==> TriedInFull(TraceOf(waiter.log, n, k), k, retries)
      {
        KeyFamily(targets[i].0, targets[i].1);
      }
    }

    /** Write down what a batch of requests other than for strings left unanswered. */
    ghost method GiveUp(h: Log, targets: seq<(Addr, Request)>, out: seq<Option<Bytes>>)
      requires waiter.Valid() && LogOk(h, start, retries, gaveUp, unanswered) && KnownWhole() && MissesBounded()
      requires Asks(targets) && |out| == |targets| && Touches(h, waiter.log, SetOf(KeysOf(ReqsOf(targets))))
      requires forall i :: 0 <= i < |targets| ==> !targets[i].1.Chunk?
      requires LeftInFull(|h|, targets, out)
      modifies this`gaveUp
      ensures Valid() && gaveUp == old(gaveUp) + Lost(targets, out)
    {
      TargetKeys(targets);
      Freed(targets);
      LogOkKept(h, waiter.log, SetOf(KeysOf(ReqsOf(targets))), start, retries, gaveUp, Lost(targets, out), unanswered);
      gaveUp := gaveUp + Lost(targets, out);
    }

    /** One request, with the discovery retries. */
    method ReqStd(addr: Addr, r: Request) returns (reply: Option<Bytes>)
      requires Valid() && !r.Chunk? && !r.Value?
      modifies waiter, this`gaveUp
      ensures Valid() && Extends(old(waiter.log), waiter.log)
      ensures gaveUp == old(gaveUp) + Lost([(addr, r)], [reply])
      ensures Replied(waiter, |old(waiter.log)|, [(addr, r)], [reply], retries)
    {
      ghost var h, targets := waiter.log, [(addr, r)];
      Unregistered(targets);
      assert Key(targets[0].0, targets[0].1) !in waiter.slots;
      KeyFamily(addr, r);
      reply := ReqWith(waiter, Key(addr, r), Encode(addr, r), retries, false);
      OneTarget(h, addr, r, reply, retries);
      AskedInFull(|h|, targets, [reply], retries);
      GiveUp(h, targets, [reply]);
    }

    /** One request the next depends on: a reply within one more timeout is still taken. */
    method ReqPatient(addr: Addr, r: Request) returns (reply: Option<Bytes>)
      requires Valid() && !r.Chunk? && !r.Value?
      modifies waiter, this`gaveUp
      ensures Valid() && Extends(old(waiter.log), waiter.log)
      ensures gaveUp == old(gaveUp) + Lost([(addr, r)], [reply])
      ensures Replied(waiter, |old(waiter.log)|, [(addr, r)], [reply], retries)
      ensures Unhurried(waiter.log, |old(waiter.log)|, [(addr, r)], [reply])
    {
      ghost var h, targets := waiter.log, [(addr, r)];
      Unregistered(targets);
      assert Key(targets[0].0, targets[0].1) !in waiter.slots;
      KeyFamily(addr, r);
      reply := Requests.ReqPatient(waiter, Key(addr, r), Encode(addr, r), retries);
      OneTarget(h, addr, r, reply, retries);
      AskedInFull(|h|, targets, [reply], retries);
      GiveUp(h, targets, [reply]);
    }

    lemma OneTarget(h: Log, addr: Addr, r: Request, reply: Option<Bytes>, tries: nat)
      requires Touches(h, waiter.log, {Key(addr, r)}) && SlotOf(h, Key(addr, r)).None?
      requires Asked(waiter, |h|, Key(addr, r), reply, tries)
      ensures Touches(h, waiter.log, SetOf(KeysOf(ReqsOf([(addr, r)]))))
      ensures Replied(waiter, |h|, [(addr, r)], [reply], tries)
    {
      var targets := [(addr, r)];
      assert KeysOf(ReqsOf(targets)) == [Key(addr, r)];
      assert SetOf([Key(addr, r)]) == {Key(addr, r)} by {
        assert [Key(addr, r)][0] == Key(addr, r);
      }
      if reply.Some? {
        assert waiter.log[..|h|] == h;
        GotWasHeard(waiter.log, |h|, Key(addr, r));
      }
    }

    /** A batch that is over has its replies, and left its keys free. */
    lemma TargetsOver(n: nat, targets: seq<(Addr, Request)>, out: seq<Option<Bytes>>, tries: nat)
      requires waiter.Valid() && AllOver(waiter, ReqsOf(targets), out, n, tries)
      requires forall i :: 0 <= i < |targets| && out[i].Some? ==> Heard(waiter.log, n, ReqsOf(targets)[i].key, out[i].value)
      ensures Replied(waiter, n, targets, out, tries) && Unhurried(waiter.log, n, targets, out)
      ensures forall i :: 0 <= i < |targets| ==> Key(targets[i].0, targets[i].1) !in waiter.slots
    {
      forall i | 0 <= i < |targets|
        ensures Key(targets[i].0, targets[i].1) !in waiter.slots
        ensures Asked(waiter, n, Key(targets[i].0, targets[i].1), out[i], tries)
        ensures out[i].Some? ==> Heard(waiter.log, n, Key(targets[i].0, targets[i].1), out[i].value)
        ensures out[i].None? ==> Patient(waiter.log, n, Key(targets[i].0, targets[i].1))
      {
        var k := ReqsOf(targets)[i].key;
        assert Over(waiter.log, n, k, out[i], tries);
        assert SlotOf(waiter.log, k) == waiter.Lookup(k);
      }
    }

    /** Send a batch of requests, pipelined, each patient. */
    method AskBatch(targets: seq<(Addr, Request)>) returns (out: seq<Option<Bytes>>)
      requires waiter.Valid() && Idle(waiter.log) && Asks(targets)
      modifies waiter
      ensures waiter.Valid() && Idle(waiter.log)
      ensures Touches(old(waiter.log), waiter.log, SetOf(KeysOf(ReqsOf(targets))))
      ensures Replied(waiter, |old(waiter.log)|, targets, out, retries)
      ensures Unhurried(waiter.log, |old(waiter.log)|, targets, out)
      ensures forall i :: 0 <= i < |targets| ==> Key(targets[i].0, targets[i].1) !in waiter.slots
    {
      ghost var h := waiter.log;
      TargetKeys(targets);
      Unregistered(targets);
      out := ReqAll(waiter, ReqsOf(targets), retries);
      TargetsOver(|h|, targets, out, retries);
      Freed(targets);
      IdleKept(h, waiter.log, SetOf(KeysOf(ReqsOf(targets))));
    }

    /** Several requests, pipelined, each patient. */
    method AskAll(targets: seq<(Addr, Request)>) returns (out: seq<Option<Bytes>>)
      requires Valid() && Asks(targets) && forall i :: 0 <= i < |targets| ==> !targets[i].1.Chunk?
      modifies waiter, this`gaveUp
      ensures Valid() && Extends(old(waiter.log), waiter.log)
      ensures Replied(waiter, |old(waiter.log)|, targets, out, retries)
      ensures Unhurried(waiter.log, |old(waiter.log)|, targets, out)
      ensures gaveUp == old(gaveUp) + Lost(targets, out)
    {
      ghost var h := waiter.log;
      out := AskBatch(targets);
      AskedInFull(|h|, targets, out, retries);
      GiveUp(h, targets, out);
    }

    /** Several requests in turn, each asked `tries` times; what comes late is collected after the others. */
    method AskEach(targets: seq<(Addr, Request)>, tries: nat) returns (out: seq<Option<Bytes>>)
      requires Valid() && Asks(targets) && forall i :: 0 <= i < |targets| ==> !TurnAsks(targets[i].1)
      requires InFull(targets, tries, retries)
      modifies waiter, this`gaveUp
      ensures Valid() && Extends(old(waiter.log), waiter.log)
      ensures Replied(waiter, |old(waiter.log)|, targets, out, tries)
      ensures Unhurried(waiter.log, |old(waiter.log)|, targets, out)
      ensures gaveUp == old(gaveUp) + Lost(targets, out)
    {
      ghost var h := waiter.log;
      TargetKeys(targets);
      Unregistered(targets);
      forall i | 0 <= i < |targets|
        ensures !Nested(ReqsOf(targets)[i].key)
      {
        NestedIff(targets[i].0, targets[i].1);
      }
      out := AskInTurn(waiter, ReqsOf(targets), tries);
      TargetsOver(|h|, targets, out, tries);
      AskedInFull(|h|, targets, out, tries);
      GiveUp(h, targets, out);
    }

    /** Several requests at once, each sent once and waited on once. */
    method AskOnce(targets: seq<(Addr, Request)>) returns (out: seq<Option<Bytes>>)
      requires Valid() && Asks(targets) && forall i :: 0 <= i < |targets| ==> targets[i].1.FieldProperty?
      modifies waiter, this`gaveUp
      ensures Valid() && Extends(old(waiter.log), waiter.log)
      ensures Replied(waiter, |old(waiter.log)|, targets, out, 1)
      ensures gaveUp == old(gaveUp) + Lost(targets, out)
    {
      ghost var h := waiter.log;
      TargetKeys(targets);
      Unregistered(targets);
      out := AskTogether(waiter, ReqsOf(targets), false);
      forall i | 0 <= i < |targets|
        ensures Key(targets[i].0, targets[i].1) !in waiter.slots
        ensures Asked(waiter, |h|, Key(targets[i].0, targets[i].1), out[i], 1)
        ensures out[i].None? ==> TraceOf(waiter.log, |h|, Key(targets[i].0, targets[i].1)).missed
        ensures out[i].Some? ==> Heard(waiter.log, |h|, Key(targets[i].0, targets[i].1), out[i].value)
      {
        var k := ReqsOf(targets)[i].key;
        assert ExchangedFor(h, waiter.log, k, out[i], false);
        assert SlotOf(waiter.log, k) == waiter.Lookup(k);
        KeyFamily(targets[i].0, targets[i].1);
        OnceOver(h, waiter.log, k, out[i]);
      }
      AskedInFull(|h|, targets, out, 1);
      GiveUp(h, targets, out);
    }

    ghost function Now(): Snap
      reads this, waiter
    {
      Snap(waiter.log, gaveUp, known, opMisses, silent)
    }

    // ----- strings

    ghost function Memo(): Memory
      reads this
    {
      Memory(known, unanswered, gaveUp)
    }

    /** Take one reply into its fetch and the memo. */
    method AbsorbOne(f: Fetch, r: Option<Bytes>) returns (g: Fetch)
      requires !f.done
      modifies this`known, this`unanswered, this`gaveUp
      ensures g == NextFetch(f, r) && MemoAt(old(Memo()), Memo(), f, r)
      ensures forall id :: id != f.id ==> SameAt(old(Memo()), Memo(), id)
      ensures gaveUp == old(gaveUp) + if r.None? then {ChunkKey(f.id, f.seqNo)} else {}
    {
      g := NextFetch(f, r);
      if r.None? {
        gaveUp := gaveUp + {ChunkKey(f.id, f.seqNo)};
        if f.seqNo == 0 {
          unanswered := unanswered[f.id := Count(unanswered, f.id) + 1];
        }
      } else if g.done {
        known := known[f.id := g.s];
      }
    }

    /** Take a round's replies into the fetches and the memo. */
    method Absorb(fetches: seq<Fetch>, rs: seq<Option<Bytes>>) returns (next: seq<Fetch>)
      requires DistinctIds(fetches) && |rs| == |fetches|
      modifies this`known, this`unanswered, this`gaveUp
      ensures Advanced(fetches, rs, next) && Remembered(fetches, rs, |fetches|, old(Memo()), Memo())
      ensures gaveUp == old(gaveUp) + LostChunks(fetches, rs, |fetches|)
    {
      ghost var m := Memo();
      next := [];
      for n := 0 to |fetches|
        invariant |next| == n && forall i :: 0 <= i < n ==> next[i] == AfterRound(fetches[i], rs[i])
        invariant Remembered(fetches, rs, n, m, Memo()) && gaveUp == m.gaveUp + LostChunks(fetches, rs, n)
      {
        var f := AbsorbNext(fetches, rs, n, m);
        next := next + [f];
      }
    }

    /** Take the reply to one more fetch into the memo. */
    method AbsorbNext(fetches: seq<Fetch>, rs: seq<Option<Bytes>>, n: nat, ghost m: Memory) returns (g: Fetch)
      requires DistinctIds(fetches) && n < |fetches| == |rs|
      requires Remembered(fetches, rs, n, m, Memo()) && gaveUp == m.gaveUp + LostChunks(fetches, rs, n)
      modifies this`known, this`unanswered, this`gaveUp
      ensures g == AfterRound(fetches[n], rs[n]) && Remembered(fetches, rs, n + 1, m, Memo())
      ensures gaveUp == m.gaveUp + LostChunks(fetches, rs, n + 1)
    {
      LostNext(fetches, rs, n);
      ghost var m1 := Memo();
      g := fetches[n];
      if !g.done {
        g := AbsorbOne(g, rs[n]);
      }
      RememberStep(fetches, rs, n, m, m1, Memo());
    }

    /** One round: the next chunk of every string not yet whole, in one batch. */
    method FetchRound(fetches: seq<Fetch>, round: nat) returns (next: seq<Fetch>)
      requires Valid() && FetchesOk(fetches, round, text, waiter.allowed, waiter.log, start, Memo())
      modifies waiter, this`known, this`unanswered, this`gaveUp
      ensures Valid() && FetchesOk(next, round + 1, text, waiter.allowed, waiter.log, start, Memo())
      ensures |next| == |fetches| && (forall i :: 0 <= i < |fetches| ==> next[i].id == fetches[i].id)
      ensures Extends(old(waiter.log), waiter.log) && Grown(old(Memo()), Memo())
    {
      ghost var h, m := waiter.log, Memo();
      var rs := AskChunks(fetches);
      next := Absorb(fetches, rs);
      RoundKeeps(h, waiter.log, start, retries, fetches, rs, next, round, text, waiter.allowed, m, Memo());
    }

    /** Ask for the next chunk of every fetch going on; the replies are in the order of the fetches. */
    method AskChunks(fetches: seq<Fetch>) returns (rs: seq<Option<Bytes>>)
      requires waiter.Valid() && Idle(waiter.log) && DistinctIds(fetches)
      modifies waiter
      ensures waiter.Valid() && Idle(waiter.log) && |rs| == |fetches|
      ensures Touches(old(waiter.log), waiter.log, AskedKeys(fetches))
      ensures forall i :: 0 <= i < |fetches| && !fetches[i].done ==>
        ChunkAsked(waiter.log, |old(waiter.log)|, fetches[i], rs[i], retries, waiter.allowed)
    {
      ghost var h := waiter.log;
      var open := GoingOn(fetches);
      var targets := ChunkTargets(fetches, open);
      ChunkTargetsAsk(fetches, open);
      var replies := AskBatch(targets);
      rs := Place(seq(|fetches|, _ => None), open, replies);
      forall i | 0 <= i < |fetches| && !fetches[i].done
        ensures ChunkAsked(waiter.log, |h|, fetches[i], rs[i], retries, waiter.allowed)
      {
        var j :| 0 <= j < |open| && open[j] == i;
        assert Asked(waiter, |h|, Key(targets[j].0, targets[j].1), replies[j], retries);
      }
      ChunkKeysAsked(fetches, open);
      TouchesFewer(h, waiter.log, SetOf(KeysOf(ReqsOf(targets))), AskedKeys(fetches));
    }

    /** The fetches to make: each id once, unless it is known or has gone unanswered too often. */
    method StartFetches(ids: seq<Id>) returns (fetches: seq<Fetch>)
      requires forall i :: 0 <= i < |ids| ==> Tells(waiter.allowed, ids[i], text(ids[i])) && Ends(text(ids[i]))
      ensures FetchesOk(fetches, 0, text, waiter.allowed, waiter.log, start, Memo())
      ensures forall i :: 0 <= i < |ids| ==>
        ids[i] in known || Count(unanswered, ids[i]) >= 2 || HasFetch(fetches, ids[i])
    {
      fetches := [];
      for n := 0 to |ids|
        invariant FetchesOk(fetches, 0, text, waiter.allowed, waiter.log, start, Memo())
        invariant forall i :: 0 <= i < n ==>
          ids[i] in known || Count(unanswered, ids[i]) >= 2 || HasFetch(fetches, ids[i])
      {
        var id := ids[n];
        if id !in known && Count(unanswered, id) < UNANSWERED_STR_LIMIT && !HasFetch(fetches, id) {
          ghost var before := fetches;
          fetches := fetches + [Fetch(id, [], 0, false)];
          assert fetches[|before|].id == id;
          forall q | HasFetch(before, q)
            ensures HasFetch(fetches, q)
          {
            var j :| 0 <= j < |before| && before[j].id == q;
            assert fetches[j].id == q;
          }
        }
      }
    }

    /** Rounds until every fetch is over. */
    method RunFetches(first: seq<Fetch>) returns (fetches: seq<Fetch>)
      requires Valid() && FetchesOk(first, 0, text, waiter.allowed, waiter.log, start, Memo())
      modifies waiter, this`known, this`unanswered, this`gaveUp
      ensures Valid() && Extends(old(waiter.log), waiter.log) && Grown(old(Memo()), Memo())
      ensures exists round :: FetchesOk(fetches, round, text, waiter.allowed, waiter.log, start, Memo())
      ensures |fetches| == |first| && forall i :: 0 <= i < |first| ==> fetches[i].done && fetches[i].id == first[i].id
    {
      fetches := first;
      var round := 0;
      while exists i :: 0 <= i < |fetches| && !fetches[i].done
        invariant Valid() && FetchesOk(fetches, round, text, waiter.allowed, waiter.log, start, Memo())
        invariant |fetches| == |first| && forall i :: 0 <= i < |first| ==> fetches[i].id == first[i].id
        invariant Extends(old(waiter.log), waiter.log) && Grown(old(Memo()), Memo())
        invariant 0 <= round <= 256
        decreases 256 - round
      {
        ghost var h, m := waiter.log, Memo();
        OpenEarly(fetches, round, text, waiter.allowed, h, start, m);
        fetches := FetchRound(fetches, round);
        ExtendsChain(old(waiter.log), h, waiter.log);
        GrownChain(old(Memo()), m, Memo());
        round := round + 1;
      }
    }

    /** An id's string once its fetch, if there was one, is over. */
    method Collected(fetches: seq<Fetch>, id: Id, ghost round: nat) returns (s: Bytes)
      requires KnownWhole() && FetchesOk(fetches, round, text, waiter.allowed, waiter.log, start, Memo())
      requires forall i :: 0 <= i < |fetches| ==> fetches[i].done
      requires Tells(waiter.allowed, id, text(id))
      requires id in known || ChunkKey(id, 0) in gaveUp || HasFetch(fetches, id)
      ensures s == Whole(text(id)) || CutOff(gaveUp, id, Whole(text(id)), s)
    {
      if id in known {
        s := known[id];
      } else {
        s := Fetched(fetches, id);
        if HasFetch(fetches, id) {
          ghost var j :| 0 <= j < |fetches| && fetches[j].id == id && fetches[j].s == s;
          assert FetchOk(fetches[j], round, text, waiter.allowed, waiter.log, start, Memo());
        } else {
          assert s == Whole(text(id))[..0];
        }
      }
    }

    /** Fetch strings by id over the wire: each comes whole, or cut off where a chunk was lost. */
    method FetchStrsWire(ids: seq<Id>) returns (out: seq<Bytes>)
      requires Valid()
      requires forall i :: 0 <= i < |ids| ==> Tells(waiter.allowed, ids[i], text(ids[i])) && Ends(text(ids[i]))
      modifies waiter, this`known, this`unanswered, this`gaveUp
      ensures Valid() && Extends(old(waiter.log), waiter.log) && Grown(old(Memo()), Memo()) && |out| == |ids|
      ensures forall i :: 0 <= i < |ids| ==>
        out[i] == Whole(text(ids[i])) || CutOff(gaveUp, ids[i], Whole(text(ids[i])), out[i])
    {
      var first := StartFetches(ids);
      FirstOrLost(first, ids);
      var fetches := RunFetches(first);
      ghost var round :| FetchesOk(fetches, round, text, waiter.allowed, waiter.log, start, Memo());
      forall i | 0 <= i < |ids|
        ensures ids[i] in known || ChunkKey(ids[i], 0) in gaveUp || HasFetch(fetches, ids[i])
      {
        SameIds(first, fetches, ids[i]);
      }
      out := CollectAll(fetches, ids, round);
    }

    lemma FirstOrLost(fetches: seq<Fetch>, ids: seq<Id>)
      requires Valid()
      requires forall i :: 0 <= i < |ids| ==>
        ids[i] in known || Count(unanswered, ids[i]) >= 2 || HasFetch(fetches, ids[i])
      ensures forall i :: 0 <= i < |ids| ==>
        ids[i] in known || ChunkKey(ids[i], 0) in gaveUp || HasFetch(fetches, ids[i])
    {
    }

    method CollectAll(fetches: seq<Fetch>, ids: seq<Id>, ghost round: nat) returns (out: seq<Bytes>)
      requires KnownWhole() && FetchesOk(fetches, round, text, waiter.allowed, waiter.log, start, Memo())
      requires forall i :: 0 <= i < |fetches| ==> fetches[i].done
      requires forall i :: 0 <= i < |ids| ==> Tells(waiter.allowed, ids[i], text(ids[i]))
      requires forall i :: 0 <= i < |ids| ==>
        ids[i] in known || ChunkKey(ids[i], 0) in gaveUp || HasFetch(fetches, ids[i])
      ensures |out| == |ids|
      ensures forall i :: 0 <= i < |ids| ==>
        out[i] == Whole(text(ids[i])) || CutOff(gaveUp, ids[i], Whole(text(ids[i])), out[i])
    {
      out := [];
      for n := 0 to |ids|
        invariant |out| == n
        invariant forall i :: 0 <= i < n ==>
          out[i] == Whole(text(ids[i])) || CutOff(gaveUp, ids[i], Whole(text(ids[i])), out[i])
      {
        var s := Collected(fetches, ids[n], round);
        out := out + [s];
      }
    }

    /** A string by id: from the catalog when it lists the id, else over the wire. */
    method FetchStr(addr: Addr, sid: Word) returns (s: Bytes)
      requires Valid()
      requires InCatalog(sid) || (Tells(waiter.allowed, (addr, sid), text((addr, sid))) && Ends(text((addr, sid))))
      modifies waiter, this`known, this`unanswered, this`gaveUp
      ensures Valid() && Extends(old(waiter.log), waiter.log) && Grown(old(Memo()), Memo())
      ensures s == StringOf(addr, sid) || (!InCatalog(sid) && CutOff(gaveUp, (addr, sid), Whole(text((addr, sid))), s))
    {
      if InCatalog(sid) {
        s := catalog.value[sid];
      } else {
        var out := FetchStrsWire([(addr, sid)]);
        s := out[0];
      }
    }

    predicate InCatalog(sid: Word) {
      catalog.Some? && sid in catalog.value
    }

    /** The string an id stands for. */
    ghost function StringOf(addr: Addr, sid: Word): Bytes {
      if InCatalog(sid) then catalog.value[sid] else Whole(text((addr, sid)))
    }

    /** Over a whole discovery, a string id that never answers costs at most so many requests. */
    lemma NeverAnsweredCost(id: Id)
      requires Valid() && !TraceOf(waiter.log, start, ChunkKey(id, 0)).answered
      ensures TraceOf(waiter.log, start, ChunkKey(id, 0)).sends == Count(unanswered, id) * retries
      ensures Count(unanswered, id) <= 2
      ensures forall q: byte | q > 0 :: TraceOf(waiter.log, start, ChunkKey(id, q)).sends == 0
    {
    }

    // ----- metadata

    /** The replies that came, by op. */
    static method Gathered(ops: seq<byte>, rs: seq<Option<Bytes>>) returns (meta: map<byte, Bytes>)
      requires Distinct(ops) && |rs| == |ops|
      ensures forall op :: op in meta ==> op in ops
      ensures forall i :: 0 <= i < |ops| ==> Get(meta, ops[i]) == rs[i]
    {
      meta := map[];
      for n := 0 to |ops|
        invariant forall op :: op in meta ==> op in ops[..n]
        invariant forall i :: 0 <= i < n ==> Get(meta, ops[i]) == rs[i]
      {
        if rs[n].Some? {
          meta := meta[ops[n] := rs[n].value];
        }
        assert ops[..n + 1] == ops[..n] + [ops[n]];
        assert ops[n] !in ops[..n];
      }
      assert ops[..|ops|] == ops;
    }

    /** Several properties of a field, in one pipelined round trip: op to payload. */
    method MetaBatch(addr: Addr, menu: Menu, index: byte, ops: seq<byte>) returns (meta: map<byte, Bytes>)
      requires Valid() && Distinct(ops)
      modifies waiter
      ensures Valid() && Touches(old(waiter.log), waiter.log, SetOf(MetaKeys(addr, menu, index, ops)))
      ensures forall op :: op in meta ==> op in ops
      ensures forall op :: op in ops ==>
        JustExchanged(old(waiter.log), waiter.log, MetaKey(addr, menu, index, op), false, Get(meta, op)) &&
        (op in meta ==> waiter.allowed(MetaKey(addr, menu, index, op), meta[op]))
    {
      ghost var h := waiter.log;
      var targets := MetaTargets(addr, menu, index, ops);
      TargetKeys(targets);
      Unregistered(targets);
      var rs := AskTogether(waiter, ReqsOf(targets), false);
      assert KeysOf(ReqsOf(targets)) == MetaKeys(addr, menu, index, ops);
      meta := Gathered(ops, rs);
      forall op | op in ops
        ensures JustExchanged(h, waiter.log, MetaKey(addr, menu, index, op), false, Get(meta, op))
        ensures op in meta ==> waiter.allowed(MetaKey(addr, menu, index, op), meta[op])
        ensures SlotOf(waiter.log, MetaKey(addr, menu, index, op)).None?
      {
        var i :| 0 <= i < |ops| && ops[i] == op;
        assert ReqsOf(targets)[i].key == MetaKey(addr, menu, index, op);
        assert ExchangedFor(h, waiter.log, ReqsOf(targets)[i].key, rs[i], false);
        assert SlotOf(waiter.log, ReqsOf(targets)[i].key) == waiter.Lookup(ReqsOf(targets)[i].key);
      }
      forall k | k in SetOf(MetaKeys(addr, menu, index, ops))
        ensures SlotOf(waiter.log, k).None?
      {
        var i :| 0 <= i < |ops| && k == MetaKeys(addr, menu, index, ops)[i];
        assert ops[i] in ops;
      }
      LogOkKept(h, waiter.log, SetOf(KeysOf(ReqsOf(targets))), start, retries, gaveUp, {}, unanswered);
      assert gaveUp + {} == gaveUp;
    }

    predicate Retried(addr: Addr, op: byte)
      reads this
    {
      Count(opMisses, (addr, op)) < 2
    }

    predicate SilentRetried(addr: Addr)
      reads this
    {
      Count(silent, addr) < 2
    }

    /** The metadata ops a field left out that are still worth asking again. */
    method LeftOutOps(addr: Addr, meta: map<byte, Bytes>) returns (missing: seq<byte>)
      ensures Distinct(missing)
      ensures forall op :: op in missing <==> op in META_OPS && op !in meta && Retried(addr, op)
    {
      missing := [];
      for n := 0 to |META_OPS|
        invariant Distinct(missing)
        invariant forall op :: op in missing <==> op in META_OPS[..n] && op !in meta && Retried(addr, op)
      {
        assert META_OPS[n] !in META_OPS[..n];
        assert META_OPS[..n + 1] == META_OPS[..n] + [META_OPS[n]];
        if META_OPS[n] !in meta && Count(opMisses, (addr, META_OPS[n])) < UNANSWERED_META_LIMIT {
          missing := missing + [META_OPS[n]];
        }
      }
    }

    /** Count the ops a retry left out, on a field that answered others. */
    method MissedOps(addr: Addr, missing: seq<byte>, meta: map<byte, Bytes>)
      requires Distinct(missing) && MissesBounded()
      requires forall op :: op in missing ==> op in META_OPS && Retried(addr, op)
      modifies this`opMisses, this`leftOut
      ensures MissesBounded() && Tallied(old(opMisses), opMisses, addr, LeftOf(missing, meta))
      ensures LeftOutTallied(old(leftOut), leftOut, addr, LeftOf(missing, meta) != {})
    {
      ghost var before := opMisses;
      var some := false;
      for n := 0 to |missing|
        invariant leftOut == old(leftOut) && silent == old(silent)
        invariant Tallied(before, opMisses, addr, LeftOf(missing[..n], meta))
        invariant some <==> LeftOf(missing[..n], meta) != {}
      {
        LeftOfNext(missing, meta, n);
        if missing[n] !in meta {
          TallyStep(before, opMisses, addr, LeftOf(missing[..n], meta), missing[n]);
          opMisses := opMisses[(addr, missing[n]) := Count(opMisses, (addr, missing[n])) + 1];
          some := true;
        }
      }
      assert missing[..|missing|] == missing;
      TallyBounds(before, opMisses, addr, LeftOf(missing, meta));
      if some {
        leftOut := leftOut[addr := Count(leftOut, addr) + 1];
      }
    }

    /** The metadata of a field, in one batch, and once more for what is missing, unless the device keeps
        leaving it out. */
    method MetaTwice(addr: Addr, menu: Menu, index: byte, wantEventable: bool)
        returns (meta: map<byte, Bytes>, wasSilent: bool, missing: seq<byte>, ghost first: set<byte>)
      requires Valid()
      modifies waiter
      ensures Valid() && Extends(old(waiter.log), waiter.log)
      ensures forall op :: op in meta ==>
        op in AskedOps(wantEventable) && waiter.allowed(MetaKey(addr, menu, index, op), meta[op])
      ensures wasSilent <==> first == {}
      ensures Distinct(missing) && forall op :: op in missing <==> op in AskedAgain(addr, first)
      ensures first <= meta.Keys <= first + AskedAgain(addr, first)
      ensures forall op :: op in AskedOps(wantEventable) ==>
        MetaAsked(waiter.log, |old(waiter.log)|, MetaKey(addr, menu, index, op), op in missing, Get(meta, op))
    {
      ghost var h := waiter.log;
      meta := MetaBatch(addr, menu, index, AskedOps(wantEventable));
      first := meta.Keys;
      wasSilent := meta == map[];
      if wasSilent {
        missing := if Count(silent, addr) < UNANSWERED_META_LIMIT then META_OPS else [];
      } else {
        missing := LeftOutOps(addr, meta);
      }
      FirstBatch(h, waiter.log, addr, menu, index, wantEventable, meta);
      if missing != [] {
        ghost var h1, meta1 := waiter.log, meta;
        var more := MetaBatch(addr, menu, index, missing);
        meta := meta + more;
        SecondBatch(h, h1, waiter.log, addr, menu, index, wantEventable, missing, meta1, more);
      }
    }

    /** What is asked again: what the first batch left out and the device has not left out too often. */
    ghost function AskedAgain(addr: Addr, first: set<byte>): set<byte>
      reads this
    {
      set op | op in META_OPS && op !in first && if first == {} then SilentRetried(addr) else Retried(addr, op)
    }

    /** All metadata of a field. `first` is what the first batch answered. */
    method FieldMeta(addr: Addr, menu: Menu, index: byte, wantEventable: bool)
        returns (meta: map<byte, Bytes>, ghost first: set<byte>)
      requires Valid()
      modifies waiter, this`opMisses, this`silent, this`leftOut, this`gaveUp
      ensures Valid() && Extends(old(waiter.log), waiter.log)
      ensures forall op :: op in meta ==>
        op in AskedOps(wantEventable) && waiter.allowed(MetaKey(addr, menu, index, op), meta[op])
      ensures gaveUp == old(gaveUp) + LostOps(addr, menu, index, wantEventable, meta)
      ensures first <= meta.Keys <= first + old(AskedAgain(addr, first))
      ensures forall op :: op in AskedOps(wantEventable) ==>
        MetaAsked(waiter.log, |old(waiter.log)|, MetaKey(addr, menu, index, op),
                  op in old(AskedAgain(addr, first)), Get(meta, op))
      // Only an op left out by a field that answered others counts as one the device may not answer.
      ensures Tallied(old(opMisses), opMisses, addr, if first == {} then {} else old(AskedAgain(addr, first)) - meta.Keys)
      ensures LeftOutTallied(old(leftOut), leftOut, addr, first != {} && old(AskedAgain(addr, first)) - meta.Keys != {})
      ensures SilentTallied(old(silent), silent, addr, first == {} && old(SilentRetried(addr)), meta == map[])
    {
      ghost var h := waiter.log;
      var wasSilent, missing;
      meta, wasSilent, missing, first := MetaTwice(addr, menu, index, wantEventable);
      ghost var asked := AskedAgain(addr, first);
      assert asked == old(AskedAgain(addr, first));
      Settle(h, addr, menu, index, wantEventable, wasSilent, missing, meta, first, asked);
    }

    /** Write down what a field's two batches left unanswered. */
    method Settle(ghost h: Log, addr: Addr, menu: Menu, index: byte, wantEventable: bool, wasSilent: bool,
                  missing: seq<byte>, meta: map<byte, Bytes>, ghost first: set<byte>, ghost asked: set<byte>)
      requires Valid() && Extends(h, waiter.log) && start <= |h| && asked == AskedAgain(addr, first)
      requires (wasSilent <==> first == {}) && first <= meta.Keys
      requires Distinct(missing) && forall op :: op in missing <==> op in asked
      requires forall op :: op in AskedOps(wantEventable) ==>
        MetaAsked(waiter.log, |h|, MetaKey(addr, menu, index, op), op in asked, Get(meta, op))
      modifies this`opMisses, this`silent, this`leftOut, this`gaveUp
      ensures Valid() && gaveUp == old(gaveUp) + LostOps(addr, menu, index, wantEventable, meta)
      ensures Tallied(old(opMisses), opMisses, addr, if first == {} then {} else asked - meta.Keys)
      ensures LeftOutTallied(old(leftOut), leftOut, addr, first != {} && asked - meta.Keys != {})
      ensures SilentTallied(old(silent), silent, addr, first == {} && old(SilentRetried(addr)), meta == map[])
    {
      LoseOps(h, addr, menu, index, wantEventable, asked, meta);
      CountMisses(addr, wasSilent, missing, meta, first);
    }

    /** Write down the ops a field did not answer. */
    ghost method LoseOps(h: Log, addr: Addr, menu: Menu, index: byte, wantEventable: bool, asked: set<byte>,
                         meta: map<byte, Bytes>)
      requires Valid() && Extends(h, waiter.log) && start <= |h|
      requires forall op :: op in AskedOps(wantEventable) ==>
        MetaAsked(waiter.log, |h|, MetaKey(addr, menu, index, op), op in asked, Get(meta, op))
      modifies this`gaveUp
      ensures Valid() && gaveUp == old(gaveUp) + LostOps(addr, menu, index, wantEventable, meta)
    {
      MetaLost(h, addr, menu, index, wantEventable, asked, meta);
      gaveUp := gaveUp + LostOps(addr, menu, index, wantEventable, meta);
    }

    /** Count what a field's second batch left out. */
    method CountMisses(addr: Addr, wasSilent: bool, missing: seq<byte>, meta: map<byte, Bytes>, ghost first: set<byte>)
      requires MissesBounded() && (wasSilent <==> first == {}) && first <= meta.Keys
      requires Distinct(missing) && forall op :: op in missing <==> op in AskedAgain(addr, first)
      modifies this`opMisses, this`silent, this`leftOut
      ensures MissesBounded()
      ensures Tallied(old(opMisses), opMisses, addr, if first == {} then {} else old(AskedAgain(addr, first)) - meta.Keys)
      ensures LeftOutTallied(old(leftOut), leftOut, addr, first != {} && old(AskedAgain(addr, first)) - meta.Keys != {})
      ensures SilentTallied(old(silent), silent, addr, first == {} && old(SilentRetried(addr)), meta == map[])
    {
      if missing == [] {
        NothingAsked(addr, first, missing);
      } else if wasSilent {
        assert missing[0] in AskedAgain(addr, first);
        assert SilentRetried(addr);
        ghost var before := silent;
        silent := silent[addr := if meta != map[] then 0 else Count(silent, addr) + 1];
        assert forall a :: Count(silent, a) <= if a == addr then UNANSWERED_META_LIMIT else Count(before, a);
      } else {
        assert LeftOf(missing, meta) == AskedAgain(addr, first) - meta.Keys;
        MissedOps(addr, missing, meta);
      }
    }

    lemma NothingAsked(addr: Addr, first: set<byte>, missing: seq<byte>)
      requires missing == [] && forall op :: op in missing <==> op in AskedAgain(addr, first)
      ensures first == {} ==> !SilentRetried(addr)
      ensures AskedAgain(addr, first) == {}
    {
      assert OP_NAME in META_OPS;
      assert OP_NAME !in AskedAgain(addr, first);
    }

    lemma FirstBatch(h: Log, h1: Log, addr: Addr, menu: Menu, index: byte, wantEventable: bool, meta: map<byte, Bytes>)
      requires forall op :: op in AskedOps(wantEventable) ==>
        JustExchanged(h, h1, MetaKey(addr, menu, index, op), false, Get(meta, op))
      ensures forall op :: op in AskedOps(wantEventable) ==>
        MetaAsked(h1, |h|, MetaKey(addr, menu, index, op), false, Get(meta, op))
    {
    }

    lemma SecondBatch(h: Log, h1: Log, h2: Log, addr: Addr, menu: Menu, index: byte, wantEventable: bool,
                      missing: seq<byte>, meta: map<byte, Bytes>, more: map<byte, Bytes>)
      requires Extends(h, h1) && Touches(h1, h2, SetOf(MetaKeys(addr, menu, index, missing)))
      requires forall op :: op in missing ==> op in META_OPS && op !in meta
      requires forall op :: op in more ==> op in missing
      requires forall op :: op in AskedOps(wantEventable) ==>
        JustExchanged(h, h1, MetaKey(addr, menu, index, op), false, Get(meta, op))
      requires forall op :: op in missing ==>
        JustExchanged(h1, h2, MetaKey(addr, menu, index, op), false, Get(more, op))
      ensures Extends(h, h2)
      ensures forall op :: op in AskedOps(wantEventable) ==>
        MetaAsked(h2, |h|, MetaKey(addr, menu, index, op), op in missing, Get(meta + more, op))
    {
      ExtendsChain(h, h1, h2);
      forall op | op in AskedOps(wantEventable)
        ensures MetaAsked(h2, |h|, MetaKey(addr, menu, index, op), op in missing, Get(meta + more, op))
      {
        var k := MetaKey(addr, menu, index, op);
        assert JustExchanged(h, h1, k, false, Get(meta, op));
        assert TraceOf(h, |h|, k) == NOTHING;
        if op !in missing {
          OtherOp(addr, menu, index, op, missing);
          assert Untouched(h1, h2, k);
        }
      }
    }

    lemma MetaLost(h: Log, addr: Addr, menu: Menu, index: byte, wantEventable: bool, asked: set<byte>,
                   meta: map<byte, Bytes>)
      requires waiter.Valid() && LogOk(waiter.log, start, retries, gaveUp, unanswered) && Extends(h, waiter.log)
      requires start <= |h|
      requires forall op :: op in AskedOps(wantEventable) ==>
        MetaAsked(waiter.log, |h|, MetaKey(addr, menu, index, op), op in asked, Get(meta, op))
      ensures LogOk(waiter.log, start, retries, gaveUp + LostOps(addr, menu, index, wantEventable, meta), unanswered)
    {
      forall k | k in LostOps(addr, menu, index, wantEventable, meta)
        ensures TriedInFull(TraceOf(waiter.log, start, k), k, retries)
      {
        var op :| op in AskedOps(wantEventable) && op !in meta && k == MetaKey(addr, menu, index, op);
        KeyFamily(addr, FieldProperty(menu, op, index));
        assert MetaAsked(waiter.log, |h|, MetaKey(addr, menu, index, op), op in asked, Get(meta, op));
        Later(h, waiter.log, start, k);
      }
    }

    /** Over a whole discovery, a device's retry batches on partly answered fields that left an op out. */
    lemma LeftOutLimit(addr: Addr)
      requires Valid()
      ensures Count(leftOut, addr) <= 10
    {
    }
  }

  /** A discovery's state, as far as it is only ever added to. */
  datatype Snap = Snap(log: Log, gaveUp: set<string>, known: map<Id, Bytes>,
                       opMisses: map<(Addr, byte), nat>, silent: map<Addr, nat>)

  /** What stays as a discovery goes on: its history, what it gave up, the strings it knows, and the ops and
      devices whose metadata it has stopped asking for again. */
  ghost predicate Onward(a: Snap, b: Snap) {
    Extends(a.log, b.log) && a.gaveUp <= b.gaveUp &&
    (forall id | id in a.known :: id in b.known && b.known[id] == a.known[id]) &&
    (forall k :: Count(a.opMisses, k) <= Count(b.opMisses, k)) &&
    (forall addr :: Count(a.silent, addr) >= UNANSWERED_META_LIMIT ==> Count(b.silent, addr) == Count(a.silent, addr))
  }

  lemma OnwardChain(a: Snap, b: Snap, c: Snap)
    requires Onward(a, b) && Onward(b, c)
    ensures Onward(a, c)
  {
  }

  /** One more for each of these ops of the device, and nothing else changed. */
  ghost predicate Tallied(m: map<(Addr, byte), nat>, m': map<(Addr, byte), nat>, addr: Addr, ops: set<byte>) {
    forall k :: Count(m', k) == (if k.0 == addr && k.1 in ops then Count(m, k) + 1 else Count(m, k))
  }

  ghost predicate LeftOutTallied(m: map<Addr, nat>, m': map<Addr, nat>, addr: Addr, one: bool) {
    forall a :: Count(m', a) == (if a == addr && one then Count(m, a) + 1 else Count(m, a))
  }

  /** With a retry that was tried: one more field in a row left it silent, or none has. */
  ghost predicate SilentTallied(m: map<Addr, nat>, m': map<Addr, nat>, addr: Addr, tried: bool, stillSilent: bool) {
    forall a :: Count(m', a) == (if a != addr || !tried then Count(m, a) else if stillSilent then Count(m, a) + 1 else 0)
  }

  function LeftOf(missing: seq<byte>, meta: map<byte, Bytes>): set<byte> {
    set op | op in missing && op !in meta
  }

  lemma LeftOfNext(missing: seq<byte>, meta: map<byte, Bytes>, n: nat)
    requires n < |missing| && Distinct(missing)
    ensures LeftOf(missing[..n + 1], meta) ==
      LeftOf(missing[..n], meta) + if missing[n] in meta then {} else {missing[n]}
    ensures missing[n] !in LeftOf(missing[..n], meta)
  {
  }

  lemma TallyStep(m: map<(Addr, byte), nat>, m1: map<(Addr, byte), nat>, addr: Addr, ops: set<byte>, op: byte)
    requires Tallied(m, m1, addr, ops) && op !in ops
    ensures Tallied(m, m1[(addr, op) := Count(m1, (addr, op)) + 1], addr, ops + {op})
  {
  }

  lemma TallyBounds(m: map<(Addr, byte), nat>, m': map<(Addr, byte), nat>, addr: Addr, ops: set<byte>)
    requires Tallied(m, m', addr, ops)
    requires forall k :: Count(m, k) <= UNANSWERED_META_LIMIT
    requires forall op :: op in ops ==> op in META_OPS && Count(m, (addr, op)) < UNANSWERED_META_LIMIT
    ensures forall k :: Count(m', k) <= UNANSWERED_META_LIMIT
    ensures forall a :: SumMisses(m', a) >= SumMisses(m, a) + if a == addr && ops != {} then 1 else 0
  {
  }

  /** The ops asked of a field: the metadata, and whether it is an eventable output. */
  function AskedOps(wantEventable: bool): (ops: seq<byte>)
    ensures Distinct(ops) && forall op :: op in META_OPS ==> op in ops
  {
    if wantEventable then META_OPS + [OP_EVENTABLE] else META_OPS
  }

  /** The keys of the ops a field did not answer. */
  function LostOps(addr: Addr, menu: Menu, index: byte, wantEventable: bool, meta: map<byte, Bytes>): set<string> {
    set op | op in AskedOps(wantEventable) && op !in meta :: MetaKey(addr, menu, index, op)
  }

  /** An op was sent once, or twice when it was asked again, and never after its answer. */
  ghost predicate MetaAsked(h: Log, n: nat, key: string, again: bool, r: Option<Bytes>) {
    var t := TraceOf(h, n, key);
    t.got == r && t.sends == t.waits == (if again then 2 else 1) && t.repeats == 0 && t.unheard == 0 &&
    (t.answered <==> r.Some?) && (r.None? ==> t.missed)
  }

  lemma OtherOp(addr: Addr, menu: Menu, index: byte, op: byte, ops: seq<byte>)
    requires op !in ops
    ensures MetaKey(addr, menu, index, op) !in SetOf(MetaKeys(addr, menu, index, ops))
    ensures !Foreign(MetaKey(addr, menu, index, op))
  {
    KeyFamily(addr, FieldProperty(menu, op, index));
    forall i | 0 <= i < |ops|
      ensures MetaKey(addr, menu, index, ops[i]) != MetaKey(addr, menu, index, op)
    {
      if MetaKey(addr, menu, index, ops[i]) == MetaKey(addr, menu, index, op) {
        KeyInjective(addr, FieldProperty(menu, ops[i], index), addr, FieldProperty(menu, op, index));
      }
    }
  }

  function MetaKey(addr: Addr, menu: Menu, index: byte, op: byte): string {
    Key(addr, FieldProperty(menu, op, index))
  }

  function MetaKeys(addr: Addr, menu: Menu, index: byte, ops: seq<byte>): (keys: seq<string>)
    ensures |keys| == |ops| && forall i :: 0 <= i < |ops| ==> keys[i] == MetaKey(addr, menu, index, ops[i])
  {
    seq(|ops|, i requires 0 <= i < |ops| => MetaKey(addr, menu, index, ops[i]))
  }

  function MetaTargets(addr: Addr, menu: Menu, index: byte, ops: seq<byte>): (targets: seq<(Addr, Request)>)
    requires Distinct(ops)
    ensures |targets| == |ops| && Asks(targets)
    ensures forall i :: 0 <= i < |ops| ==> targets[i] == (addr, FieldProperty(menu, ops[i], index))
  {
    var targets := seq(|ops|, i requires 0 <= i < |ops| => (addr, FieldProperty(menu, ops[i], index)));
    assert forall i, j :: 0 <= i < j < |ops| ==> targets[i].1.op != targets[j].1.op;
    targets
  }

  function Get<K, V>(m: map<K, V>, k: K): Option<V> {
    if k in m then Some(m[k]) else None
  }

  predicate HasFetch(fetches: seq<Fetch>, id: Id) {
    exists i :: 0 <= i < |fetches| && fetches[i].id == id
  }

  lemma SameIds(first: seq<Fetch>, fetches: seq<Fetch>, id: Id)
    requires |first| == |fetches| && forall i :: 0 <= i < |first| ==> fetches[i].id == first[i].id
    ensures HasFetch(first, id) ==> HasFetch(fetches, id)
  {
  }

  /** What the first fetch of an id brought; nothing if there is none. */
  function Fetched(fetches: seq<Fetch>, id: Id): (s: Bytes)
    ensures HasFetch(fetches, id) ==> exists i :: 0 <= i < |fetches| && fetches[i].id == id && fetches[i].s == s
    ensures !HasFetch(fetches, id) ==> s == []
  {
    if fetches == [] then []
    else if fetches[0].id == id then fetches[0].s
    else
      var s := Fetched(fetches[1..], id);
      assert forall i :: 0 <= i < |fetches| - 1 ==> fetches[1..][i] == fetches[i + 1];
      assert HasFetch(fetches, id) ==> HasFetch(fetches[1..], id) by {
        if i :| 0 <= i < |fetches| && fetches[i].id == id {
          assert fetches[1..][i - 1].id == id;
        }
      }
      s
  }

  /** The parts of a discovery a string fetch changes. */
  datatype Memory = Memory(known: map<Id, Bytes>, unanswered: map<Id, nat>, gaveUp: set<string>)

  /** A string cut off by a lost chunk: what its earlier chunks brought. */
  ghost predicate CutOff(gaveUp: set<string>, id: Id, whole: Bytes, s: Bytes) {
    exists q: byte :: 4 * q as int <= |whole| && s == whole[..4 * q as int] && ChunkKey(id, q) in gaveUp
  }

  /** Where a fetch stands after `round` rounds. */
  ghost predicate FetchOk(f: Fetch, round: nat, text: Id -> Bytes, allowed: (string, Bytes) -> bool,
                          h: Log, start: nat, m: Memory)
  {
    var w := Whole(text(f.id));
    Tells(allowed, f.id, text(f.id)) && Ends(text(f.id)) &&
    if f.done then
      (f.id in m.known && m.known[f.id] == w) || (f.id !in m.known && CutOff(m.gaveUp, f.id, w, f.s))
    else
      f.seqNo as int == round && 4 * round <= |w| && f.s == w[..4 * round] && f.id !in m.known &&
      Count(m.unanswered, f.id) < UNANSWERED_STR_LIMIT &&
      (round > 0 ==> TraceOf(h, start, ChunkKey(f.id, 0)).answered)
  }

  ghost predicate FetchesOk(fetches: seq<Fetch>, round: nat, text: Id -> Bytes, allowed: (string, Bytes) -> bool,
                            h: Log, start: nat, m: Memory)
  {
    DistinctIds(fetches) && forall i :: 0 <= i < |fetches| ==> FetchOk(fetches[i], round, text, allowed, h, start, m)
  }

  function ChunkTargets(fetches: seq<Fetch>, open: seq<nat>): (targets: seq<(Addr, Request)>)
    requires forall j :: 0 <= j < |open| ==> open[j] < |fetches|
    ensures |targets| == |open|
    ensures forall j :: 0 <= j < |open| ==>
      var f := fetches[open[j]]; targets[j] == (f.id.0, Chunk(f.id.1, f.seqNo))
  {
    seq(|open|, j requires 0 <= j < |open| =>
      (fetches[open[j]].id.0, Chunk(fetches[open[j]].id.1, fetches[open[j]].seqNo)))
  }

  lemma ChunkTargetsAsk(fetches: seq<Fetch>, open: seq<nat>)
    requires DistinctIds(fetches)
    requires forall i, j :: 0 <= i < j < |open| ==> open[i] < open[j]
    requires forall j :: 0 <= j < |open| ==> open[j] < |fetches|
    ensures Asks(ChunkTargets(fetches, open))
  {
  }

  /** The keys of the chunks are those of the fetches going on. */
  lemma ChunkKeysAsked(fetches: seq<Fetch>, open: seq<nat>)
    requires forall j :: 0 <= j < |open| ==> open[j] < |fetches| && !fetches[open[j]].done
    ensures SetOf(KeysOf(ReqsOf(ChunkTargets(fetches, open)))) <= AskedKeys(fetches)
  {
    var targets := ChunkTargets(fetches, open);
    forall k | k in SetOf(KeysOf(ReqsOf(targets)))
      ensures k in AskedKeys(fetches)
    {
      var j :| 0 <= j < |targets| && k == KeysOf(ReqsOf(targets))[j];
      assert k == ChunkKey(fetches[open[j]].id, fetches[open[j]].seqNo);
    }
  }

  /** What a batch did with one fetch's chunk. */
  ghost predicate ChunkAsked(h: Log, n: nat, f: Fetch, r: Option<Bytes>, retries: nat,
                             allowed: (string, Bytes) -> bool) {
    var t := TraceOf(h, n, ChunkKey(f.id, f.seqNo));
    AskedAs(t, r, retries) && (r.None? ==> t.missed) &&
    (r.Some? ==> allowed(ChunkKey(f.id, f.seqNo), r.value))
  }

  /** The keys a round asks for. */
  function AskedKeys(fetches: seq<Fetch>): set<string> {
    set i | 0 <= i < |fetches| && !fetches[i].done :: ChunkKey(fetches[i].id, fetches[i].seqNo)
  }

  function LostChunks(fetches: seq<Fetch>, rs: seq<Option<Bytes>>, n: nat): set<string>
    requires n <= |fetches| == |rs|
  {
    set i | 0 <= i < n && !fetches[i].done && rs[i].None? :: ChunkKey(fetches[i].id, fetches[i].seqNo)
  }

  function LostChunk(f: Fetch, r: Option<Bytes>): set<string> {
    if !f.done && r.None? then {ChunkKey(f.id, f.seqNo)} else {}
  }

  lemma LostNext(fetches: seq<Fetch>, rs: seq<Option<Bytes>>, n: nat)
    requires n < |fetches| == |rs|
    ensures LostChunks(fetches, rs, n + 1) == LostChunks(fetches, rs, n) + LostChunk(fetches[n], rs[n])
  {
  }

  function AfterRound(f: Fetch, r: Option<Bytes>): Fetch {
    if f.done then f else NextFetch(f, r)
  }

  predicate Advanced(fetches: seq<Fetch>, rs: seq<Option<Bytes>>, next: seq<Fetch>) {
    |next| == |rs| == |fetches| && forall i :: 0 <= i < |fetches| ==> next[i] == AfterRound(fetches[i], rs[i])
  }

  /** The memo about a fetch's string, after its reply. */
  predicate MemoAt(m: Memory, m': Memory, f: Fetch, r: Option<Bytes>) {
    (if r.Some? && NextFetch(f, r).done then f.id in m'.known && m'.known[f.id] == NextFetch(f, r).s
     else (f.id in m'.known <==> f.id in m.known) && (f.id in m.known ==> m'.known[f.id] == m.known[f.id])) &&
    Count(m'.unanswered, f.id) == Count(m.unanswered, f.id) + if r.None? && f.seqNo == 0 then 1 else 0
  }

  predicate SameAt(m: Memory, m': Memory, id: Id) {
    (id in m'.known <==> id in m.known) && (id in m.known ==> m'.known[id] == m.known[id]) &&
    Count(m'.unanswered, id) == Count(m.unanswered, id)
  }

  /** Whether one of the first `n` fetches going on is for the id. */
  predicate AskedFor(fetches: seq<Fetch>, n: nat, id: Id)
    requires n <= |fetches|
  {
    exists i :: 0 <= i < n && !fetches[i].done && fetches[i].id == id
  }

  /** The first `n` replies have been taken into the memo, and nothing else in it has changed. */
  ghost predicate Remembered(fetches: seq<Fetch>, rs: seq<Option<Bytes>>, n: nat, m: Memory, m': Memory)
    requires n <= |fetches| == |rs|
  {
    (forall i :: 0 <= i < n && !fetches[i].done ==> MemoAt(m, m', fetches[i], rs[i])) &&
    (forall id :: !AskedFor(fetches, n, id) ==> SameAt(m, m', id))
  }

  lemma RememberStep(fetches: seq<Fetch>, rs: seq<Option<Bytes>>, n: nat, m: Memory, m1: Memory, m2: Memory)
    requires DistinctIds(fetches) && n < |fetches| == |rs| && Remembered(fetches, rs, n, m, m1)
    requires if fetches[n].done then m2 == m1 else MemoAt(m1, m2, fetches[n], rs[n])
    requires forall id :: id != fetches[n].id ==> SameAt(m1, m2, id)
    ensures Remembered(fetches, rs, n + 1, m, m2)
  {
    var f := fetches[n];
    assert !AskedFor(fetches, n, f.id);
    assert SameAt(m, m1, f.id);
    forall i | 0 <= i < n + 1 && !fetches[i].done
      ensures MemoAt(m, m2, fetches[i], rs[i])
    {
      if i < n {
        assert MemoAt(m, m1, fetches[i], rs[i]);
        assert fetches[i].id != f.id;
        assert SameAt(m1, m2, fetches[i].id);
      }
    }
    forall id | !AskedFor(fetches, n + 1, id)
      ensures SameAt(m, m2, id)
    {
      assert !AskedFor(fetches, n, id);
      assert SameAt(m, m1, id);
      if id != f.id {
        assert SameAt(m1, m2, id);
      }
    }
  }

  /** The memo after some fetching: nothing known is forgotten, nothing given up is taken back. */
  predicate Grown(m: Memory, m': Memory) {
    m.gaveUp <= m'.gaveUp && forall id | id in m.known :: id in m'.known && m'.known[id] == m.known[id]
  }

  lemma GrownChain(a: Memory, b: Memory, c: Memory)
    requires Grown(a, b) && Grown(b, c)
    ensures Grown(a, c)
  {
  }

  /** A fetch of a string that ends is over after 256 rounds. */
  lemma OpenEarly(fetches: seq<Fetch>, round: nat, text: Id -> Bytes, allowed: (string, Bytes) -> bool,
                  h: Log, start: nat, m: Memory)
    requires FetchesOk(fetches, round, text, allowed, h, start, m)
    requires exists i :: 0 <= i < |fetches| && !fetches[i].done
    ensures round < 256
  {
  }

  /** The key of a chunk that was not part of the round was not touched. */
  lemma ChunkUntouched(h: Log, h': Log, fetches: seq<Fetch>, id: Id, q: byte)
    requires Touches(h, h', AskedKeys(fetches))
    requires forall i :: 0 <= i < |fetches| && !fetches[i].done ==> fetches[i].id != id || fetches[i].seqNo != q
    ensures Untouched(h, h', ChunkKey(id, q))
  {
    KeyFamily(id.0, Chunk(id.1, q));
    if ChunkKey(id, q) in AskedKeys(fetches) {
      var i :| 0 <= i < |fetches| && !fetches[i].done && ChunkKey(id, q) == ChunkKey(fetches[i].id, fetches[i].seqNo);
      KeyInjective(id.0, Chunk(id.1, q), fetches[i].id.0, Chunk(fetches[i].id.1, fetches[i].seqNo));
    }
  }

  /** The budget of a string that was asked for. */
  lemma BudgetAfter(h: Log, h': Log, start: nat, retries: nat, f: Fetch, r: Option<Bytes>, misses: nat,
                    allowed: (string, Bytes) -> bool)
    requires start <= |h| && Extends(h, h') && InBudget(h, start, f.id, misses, retries)
    requires ChunkAsked(h', |h|, f, r, retries, allowed)
    requires f.seqNo > 0 ==> TraceOf(h, start, ChunkKey(f.id, 0)).answered
    requires f.seqNo == 0 ==> misses < UNANSWERED_STR_LIMIT
    requires f.seqNo == 0 ==> forall q: byte | q > 0 ::
      TraceOf(h', start, ChunkKey(f.id, q)).sends == TraceOf(h, start, ChunkKey(f.id, q)).sends
    ensures InBudget(h', start, f.id, misses + if r.None? && f.seqNo == 0 then 1 else 0, retries)
  {
    Later(h, h', start, ChunkKey(f.id, 0));
    assert (misses + 1) * retries == misses * retries + retries;
  }

  /** A fetch that was asked in the round, after it. */
  lemma FetchAfter(h: Log, h': Log, start: nat, retries: nat, f: Fetch, r: Option<Bytes>, round: nat,
                   text: Id -> Bytes, allowed: (string, Bytes) -> bool, m: Memory, m': Memory)
    requires start <= |h| && Extends(h, h') && !f.done && FetchOk(f, round, text, allowed, h, start, m)
    requires ChunkAsked(h', |h|, f, r, retries, allowed) && MemoAt(m, m', f, r)
    requires r.None? ==> ChunkKey(f.id, f.seqNo) in m'.gaveUp
    ensures FetchOk(NextFetch(f, r), round + 1, text, allowed, h', start, m')
  {
    if r.None? {
      assert CutOff(m'.gaveUp, f.id, Whole(text(f.id)), f.s);
    } else {
      assert r.value == ChunkReply(f.id.1, f.seqNo, text(f.id));
      FetchGrows(f, round, text(f.id));
      Later(h, h', start, ChunkKey(f.id, 0));
    }
  }

  /** A fetch that was over before the round stays as it was. */
  lemma FetchStays(h: Log, h': Log, start: nat, f: Fetch, round: nat,
                   text: Id -> Bytes, allowed: (string, Bytes) -> bool, m: Memory, m': Memory)
    requires f.done && FetchOk(f, round, text, allowed, h, start, m)
    requires SameAt(m, m', f.id) && m.gaveUp <= m'.gaveUp
    ensures FetchOk(f, round + 1, text, allowed, h', start, m')
  {
  }

  /** What a round did, on the log and in the memo. */
  ghost predicate RoundDone(h: Log, h': Log, start: nat, retries: nat, fetches: seq<Fetch>, rs: seq<Option<Bytes>>,
                            round: nat, text: Id -> Bytes, allowed: (string, Bytes) -> bool, m: Memory, m': Memory)
  {
    |rs| == |fetches| && start <= |h| && FetchesOk(fetches, round, text, allowed, h, start, m) &&
    Touches(h, h', AskedKeys(fetches)) && Idle(h') &&
    (forall i :: 0 <= i < |fetches| && !fetches[i].done ==> ChunkAsked(h', |h|, fetches[i], rs[i], retries, allowed)) &&
    Remembered(fetches, rs, |fetches|, m, m') && m'.gaveUp == m.gaveUp + LostChunks(fetches, rs, |fetches|)
  }

  lemma AskedBudget(h: Log, h': Log, start: nat, retries: nat, fetches: seq<Fetch>, rs: seq<Option<Bytes>>,
                    round: nat, text: Id -> Bytes, allowed: (string, Bytes) -> bool, m: Memory, m': Memory, i: nat)
    requires RoundDone(h, h', start, retries, fetches, rs, round, text, allowed, m, m')
    requires i < |fetches| && !fetches[i].done
    requires InBudget(h, start, fetches[i].id, Count(m.unanswered, fetches[i].id), retries)
    requires Count(m.unanswered, fetches[i].id) > 0 ==> ChunkKey(fetches[i].id, 0) in m.gaveUp
    ensures InBudget(h', start, fetches[i].id, Count(m'.unanswered, fetches[i].id), retries)
    ensures Count(m'.unanswered, fetches[i].id) > 0 ==> ChunkKey(fetches[i].id, 0) in m'.gaveUp
  {
    var f := fetches[i];
    assert FetchOk(f, round, text, allowed, h, start, m);
    assert MemoAt(m, m', f, rs[i]);
    if f.seqNo == 0 {
      LaterChunksUnasked(h, h', start, fetches, i);
    }
    BudgetAfter(h, h', start, retries, f, rs[i], Count(m.unanswered, f.id), allowed);
  }

  lemma OtherChunk(h: Log, h': Log, fetches: seq<Fetch>, i: nat, q: byte)
    requires DistinctIds(fetches) && Touches(h, h', AskedKeys(fetches))
    requires i < |fetches| && q != fetches[i].seqNo
    ensures Untouched(h, h', ChunkKey(fetches[i].id, q))
  {
    forall j | 0 <= j < |fetches| && !fetches[j].done
      ensures fetches[j].id != fetches[i].id || fetches[j].seqNo != q
    {
      assert j == i || fetches[j].id != fetches[i].id;
    }
    ChunkUntouched(h, h', fetches, fetches[i].id, q);
  }

  lemma LaterChunksUnasked(h: Log, h': Log, start: nat, fetches: seq<Fetch>, i: nat)
    requires DistinctIds(fetches) && Touches(h, h', AskedKeys(fetches)) && start <= |h|
    requires i < |fetches| && fetches[i].seqNo == 0
    ensures forall q: byte | q > 0 ::
      TraceOf(h', start, ChunkKey(fetches[i].id, q)).sends == TraceOf(h, start, ChunkKey(fetches[i].id, q)).sends
  {
    forall q: byte | q > 0
      ensures TraceOf(h', start, ChunkKey(fetches[i].id, q)).sends == TraceOf(h, start, ChunkKey(fetches[i].id, q)).sends
    {
      OtherChunk(h, h', fetches, i, q);
      assert Untouched(h, h', ChunkKey(fetches[i].id, q));
    }
  }

  lemma OtherBudget(h: Log, h': Log, start: nat, retries: nat, fetches: seq<Fetch>, m: Memory, m': Memory, id: Id)
    requires start <= |h| && Touches(h, h', AskedKeys(fetches))
    requires !AskedFor(fetches, |fetches|, id) && SameAt(m, m', id)
    requires InBudget(h, start, id, Count(m.unanswered, id), retries)
    ensures InBudget(h', start, id, Count(m'.unanswered, id), retries)
  {
    forall q: byte
      ensures TraceOf(h', start, ChunkKey(id, q)) == TraceOf(h, start, ChunkKey(id, q))
    {
      ChunkUntouched(h, h', fetches, id, q);
      assert Untouched(h, h', ChunkKey(id, q));
    }
  }

  lemma RoundLogOk(h: Log, h': Log, start: nat, retries: nat, fetches: seq<Fetch>, rs: seq<Option<Bytes>>,
                   round: nat, text: Id -> Bytes, allowed: (string, Bytes) -> bool, m: Memory, m': Memory)
    requires LogOk(h, start, retries, m.gaveUp, m.unanswered)
    requires RoundDone(h, h', start, retries, fetches, rs, round, text, allowed, m, m')
    ensures LogOk(h', start, retries, m'.gaveUp, m'.unanswered)
  {
    forall k | k in LostChunks(fetches, rs, |fetches|)
      ensures TriedInFull(TraceOf(h', |h|, k), k, retries)
    {
      var i :| 0 <= i < |fetches| && !fetches[i].done && rs[i].None? && k == ChunkKey(fetches[i].id, fetches[i].seqNo);
      KeyFamily(fetches[i].id.0, Chunk(fetches[i].id.1, fetches[i].seqNo));
      assert ChunkAsked(h', |h|, fetches[i], rs[i], retries, allowed);
    }
    HonestKept(h, h', start, retries, m.gaveUp, LostChunks(fetches, rs, |fetches|));
    forall id: Id
      ensures InBudget(h', start, id, Count(m'.unanswered, id), retries)
      ensures Count(m'.unanswered, id) > 0 ==> ChunkKey(id, 0) in m'.gaveUp
    {
      if AskedFor(fetches, |fetches|, id) {
        var i :| 0 <= i < |fetches| && !fetches[i].done && fetches[i].id == id;
        AskedBudget(h, h', start, retries, fetches, rs, round, text, allowed, m, m', i);
      } else {
        OtherBudget(h, h', start, retries, fetches, m, m', id);
      }
    }
  }

  lemma RoundFetch(h: Log, h': Log, start: nat, retries: nat, fetches: seq<Fetch>, rs: seq<Option<Bytes>>,
                   round: nat, text: Id -> Bytes, allowed: (string, Bytes) -> bool, m: Memory, m': Memory, i: nat)
    requires RoundDone(h, h', start, retries, fetches, rs, round, text, allowed, m, m') && i < |fetches|
    ensures FetchOk(AfterRound(fetches[i], rs[i]), round + 1, text, allowed, h', start, m')
  {
    var f := fetches[i];
    assert FetchOk(f, round, text, allowed, h, start, m);
    if f.done {
      assert !AskedFor(fetches, |fetches|, f.id);
      FetchStays(h, h', start, f, round, text, allowed, m, m');
    } else {
      FetchAfter(h, h', start, retries, f, rs[i], round, text, allowed, m, m');
    }
  }

  lemma RoundMemo(h: Log, h': Log, start: nat, retries: nat, fetches: seq<Fetch>, rs: seq<Option<Bytes>>,
                  round: nat, text: Id -> Bytes, allowed: (string, Bytes) -> bool, m: Memory, m': Memory, id: Id)
    requires RoundDone(h, h', start, retries, fetches, rs, round, text, allowed, m, m')
    requires id in m.known && Tells(allowed, id, text(id)) ==> m.known[id] == Whole(text(id))
    ensures id in m.known ==> id in m'.known && m'.known[id] == m.known[id]
    ensures id in m'.known && Tells(allowed, id, text(id)) ==> m'.known[id] == Whole(text(id))
  {
    if AskedFor(fetches, |fetches|, id) {
      var i :| 0 <= i < |fetches| && !fetches[i].done && fetches[i].id == id;
      assert FetchOk(fetches[i], round, text, allowed, h, start, m);
      RoundFetch(h, h', start, retries, fetches, rs, round, text, allowed, m, m', i);
      assert MemoAt(m, m', fetches[i], rs[i]);
    } else {
      assert SameAt(m, m', id);
    }
  }

  lemma RoundFetches(h: Log, h': Log, start: nat, retries: nat, fetches: seq<Fetch>, rs: seq<Option<Bytes>>,
                     next: seq<Fetch>, round: nat, text: Id -> Bytes, allowed: (string, Bytes) -> bool,
                     m: Memory, m': Memory)
    requires RoundDone(h, h', start, retries, fetches, rs, round, text, allowed, m, m') && Advanced(fetches, rs, next)
    ensures FetchesOk(next, round + 1, text, allowed, h', start, m')
  {
    forall i | 0 <= i < |fetches|
      ensures next[i].id == fetches[i].id
    {
    }
    forall i | 0 <= i < |fetches|
      ensures FetchOk(next[i], round + 1, text, allowed, h', start, m')
    {
      RoundFetch(h, h', start, retries, fetches, rs, round, text, allowed, m, m', i);
    }
  }

  lemma RoundGrows(h: Log, h': Log, start: nat, retries: nat, fetches: seq<Fetch>, rs: seq<Option<Bytes>>,
                   round: nat, text: Id -> Bytes, allowed: (string, Bytes) -> bool, m: Memory, m': Memory)
    requires RoundDone(h, h', start, retries, fetches, rs, round, text, allowed, m, m')
    requires forall id | id in m.known && Tells(allowed, id, text(id)) :: m.known[id] == Whole(text(id))
    ensures Grown(m, m')
    ensures forall id | id in m'.known && Tells(allowed, id, text(id)) :: m'.known[id] == Whole(text(id))
  {
    forall id
      ensures id in m.known ==> id in m'.known && m'.known[id] == m.known[id]
      ensures id in m'.known && Tells(allowed, id, text(id)) ==> m'.known[id] == Whole(text(id))
    {
      RoundMemo(h, h', start, retries, fetches, rs, round, text, allowed, m, m', id);
    }
  }

  /** What a round keeps: the discovery's log and budgets, its fetches, and its memo. */
  lemma RoundKeeps(h: Log, h': Log, start: nat, retries: nat, fetches: seq<Fetch>, rs: seq<Option<Bytes>>,
                   next: seq<Fetch>, round: nat, text: Id -> Bytes, allowed: (string, Bytes) -> bool,
                   m: Memory, m': Memory)
    requires LogOk(h, start, retries, m.gaveUp, m.unanswered)
    requires RoundDone(h, h', start, retries, fetches, rs, round, text, allowed, m, m') && Advanced(fetches, rs, next)
    requires forall id | id in m.known && Tells(allowed, id, text(id)) :: m.known[id] == Whole(text(id))
    ensures LogOk(h', start, retries, m'.gaveUp, m'.unanswered)
    ensures FetchesOk(next, round + 1, text, allowed, h', start, m')
    ensures |next| == |fetches| && forall i :: 0 <= i < |fetches| ==> next[i].id == fetches[i].id
    ensures Grown(m, m')
    ensures forall id | id in m'.known && Tells(allowed, id, text(id)) :: m'.known[id] == Whole(text(id))
  {
    RoundLogOk(h, h', start, retries, fetches, rs, round, text, allowed, m, m');
    RoundFetches(h, h', start, retries, fetches, rs, next, round, text, allowed, m, m');
    RoundGrows(h, h', start, retries, fetches, rs, round, text, allowed, m, m');
  }
}
