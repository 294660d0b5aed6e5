/** Asking a device: one request with retries, requests in turn, and pipelined batches. */
module Requests {
  import opened Prelude
  import opened Tab
  import opened WaiterLog
  import opened Waiters

  /** What a request came to: what its last wait found, sent at least once and at most so often when it was
      answered and exactly so often when it was not, each time under a registered key and never after its answer. */
  predicate AskedAs(t: Trace, r: Option<Bytes>, tries: nat) {
    t.got == r && t.sends <= tries && (if r.None? then t.sends == tries else t.sends > 0) && t.repeats == 0 &&
    t.unheard == 0 && (t.answered <==> r.Some?)
  }

  /** What a request did with its key since position `n`. Every send was waited on, and a key that is still
      registered is one whose last wait ran out. */
  ghost predicate Asked(w: Waiter, n: nat, key: string, r: Option<Bytes>, tries: nat)
    reads w
  {
    Asked'(w.log, n, key, r, tries) && (r.Some? ==> w.allowed(key, r.value))
  }

  predicate Asked'(h: Log, n: nat, key: string, r: Option<Bytes>, tries: nat) {
    var t := TraceOf(h, n, key);
    AskedAs(t, r, tries) && t.sends <= t.waits + t.kept
  }

  /** A request that is answered, or unanswered so far. Kept or not, each send was waited on once; asked to keep
      its key, the last wait ran out on it unless the key was cancelled. */
  ghost predicate SoFar(h: Log, n: nat, key: string, r: Option<Bytes>, tries: nat, keep: bool) {
    var t := TraceOf(h, n, key);
    Asked'(h, n, key, r, tries) && (Registers(h, key) ==> keep && r.None?) &&
    (r.None? ==>
      t.sends == t.waits + t.kept && t.kept == (if Registers(h, key) then 1 else 0) &&
      (keep && tries > 0 ==> Registers(h, key) || WasCancelled(h, n, key)))
  }

  /** A request was given up only after one wait more than it was sent: after its last attempt ran out its key was
      kept, unless cancelled, and waited on again. */
  ghost predicate Patient(h: Log, n: nat, key: string) {
    var t := TraceOf(h, n, key);
    t.missed && t.waits + t.kept == t.sends + 1 && (t.sends > 0 ==> t.kept == 1 || WasCancelled(h, n, key))
  }

  /** A request that is over: answered, or given up with patience, and its key free. */
  ghost predicate Over(h: Log, n: nat, key: string, r: Option<Bytes>, tries: nat) {
    Asked'(h, n, key, r, tries) && !Registers(h, key) && (r.None? ==> Patient(h, n, key))
  }

  lemma SoFarStays(h: Log, h': Log, n: nat, key: string, r: Option<Bytes>, tries: nat, keep: bool)
    requires n <= |h| && Extends(h, h') && Untouched(h, h', key) && SoFar(h, n, key, r, tries, keep)
    ensures SoFar(h', n, key, r, tries, keep)
  {
    if WasCancelled(h, n, key) {
      CancelledStill(h, h', n, key);
    }
  }

  /** An unanswered request that is asked once more. */
  lemma AskedOnceMore(h: Log, h': Log, n: nat, key: string, r: Option<Bytes>, tries: nat, keep: bool)
    requires n <= |h| && Extends(h, h') && SoFar(h, n, key, None, tries, false)
    requires JustExchanged(h, h', key, Registers(h', key), r) && (Registers(h', key) ==> keep)
    requires keep && r.None? && !Registers(h', key) ==> WasCancelled(h', |h|, key)
    ensures SoFar(h', n, key, r, tries + 1, keep)
  {
    if WasCancelled(h', |h|, key) {
      CancelledStill(h', h', |h|, key);
    }
  }

  /** An unanswered request whose key is waited on once more. */
  lemma WaitedOnceMore(h: Log, h': Log, n: nat, key: string, r: Option<Bytes>, tries: nat)
    requires n <= |h| && Extends(h, h') && SoFar(h, n, key, None, tries, true)
    requires JustWaited(h, h', key, false, r) && !Registers(h', key)
    ensures Over(h', n, key, r, tries)
  {
    if WasCancelled(h, n, key) {
      CancelledStill(h, h', n, key);
    }
  }

  lemma AnsweredIsOver(h: Log, n: nat, key: string, r: Option<Bytes>, tries: nat, all: nat, keep: bool)
    requires SoFar(h, n, key, r, tries, keep) && r.Some? && tries <= all
    ensures Over(h, n, key, r, all)
  {
  }

  /** One attempt: the scheduler's turn, register, send, wait. */
  method Attempt(w: Waiter, key: string, frame: Frame, keep: bool) returns (r: Option<Bytes>)
    requires w.Valid() && NestedFree(w.log) && key !in w.slots && !Foreign(key)
    modifies w
    ensures w.Valid() && Touches(old(w.log), w.log, {key})
    ensures ExchangedFor(old(w.log), w.log, key, r, keep) && (r.Some? ==> w.allowed(key, r.value))
  {
    w.OthersRun();
    ghost var h1 := w.log;
    w.Register(key);
    ghost var h2 := w.log;
    w.Transmit(key, frame);
    ghost var h3 := w.log;
    r := WaitEither(w, key, keep);
    TouchesChain(old(w.log), h1, h2, {}, {key});
    TouchesChain(old(w.log), h2, h3, {} + {key}, {key});
    TouchesChain(old(w.log), h3, w.log, {} + {key} + {key}, {key});
    assert {} + {key} + {key} + {key} == {key};
    assert Untouched(old(w.log), h1, key);
    ThreeSteps(old(w.log), h1, h2, h3, w.log, key, r, keep);
  }

  /** Ask with retries. With `keep`, the key stays registered when the last attempt is given up, so that
      a later reply is kept for `Wait` to collect. */
  method ReqWith(w: Waiter, key: string, frame: Frame, retries: nat, keep: bool) returns (r: Option<Bytes>)
    requires w.Valid() && NestedFree(w.log) && key !in w.slots && !Foreign(key)
    modifies w
    ensures w.Valid() && Touches(old(w.log), w.log, {key})
    ensures r.Some? || !keep ==> key !in w.slots
    ensures Asked(w, |old(w.log)|, key, r, retries) && SoFar(w.log, |old(w.log)|, key, r, retries, keep)
    ensures r.None? && key !in w.slots && retries > 0 ==> TraceOf(w.log, |old(w.log)|, key).missed
  {
    ghost var n := |w.log|;
    r := None;
    var attempt := 0;
    assert SlotOf(w.log, key) == w.Lookup(key);
    while attempt < retries && r.None?
      invariant 0 <= attempt <= retries && w.Valid() && Touches(old(w.log), w.log, {key}) && n <= |w.log|
      invariant attempt < retries && r.None? ==> NestedFree(w.log)
      invariant r.Some? || !keep || attempt < retries ==> key !in w.slots
      invariant SoFar(w.log, n, key, r, attempt, keep && attempt == retries)
      invariant attempt > 0 && r.None? && key !in w.slots ==> TraceOf(w.log, n, key).missed
      invariant r.Some? ==> w.allowed(key, r.value)
    {
      ghost var h := w.log;
      assert SlotOf(w.log, key) == w.Lookup(key);
      r := Attempt(w, key, frame, keep && attempt + 1 == retries);
      assert SlotOf(w.log, key) == w.Lookup(key);
      AskedOnceMore(h, w.log, n, key, r, attempt, keep && attempt + 1 == retries);
      if key !in w.slots {
        NestedFreeKept(h, w.log, {key});
      }
      TouchesChain(old(w.log), h, w.log, {key}, {key});
      assert {key} + {key} == {key};
      attempt := attempt + 1;
    }
    assert SlotOf(w.log, key) == w.Lookup(key);
    AtMost(w.log, n, key, r, attempt, retries, keep);
  }

  /** An answer before the last attempt is one within all of them. */
  lemma AtMost(h: Log, n: nat, key: string, r: Option<Bytes>, tries: nat, all: nat, keep: bool)
    requires SoFar(h, n, key, r, tries, keep && tries == all) && tries <= all && (r.None? ==> tries == all)
    ensures SoFar(h, n, key, r, all, keep)
  {
  }

  /** Ask with retries, and take a reply that comes within one more timeout after all were given up. */
  method ReqPatient(w: Waiter, key: string, frame: Frame, retries: nat) returns (r: Option<Bytes>)
    requires w.Valid() && NestedFree(w.log) && key !in w.slots && !Foreign(key)
    modifies w
    ensures w.Valid() && Touches(old(w.log), w.log, {key}) && key !in w.slots
    ensures Asked(w, |old(w.log)|, key, r, retries) && Over(w.log, |old(w.log)|, key, r, retries)
  {
    r := ReqWith(w, key, frame, retries, true);
    assert SlotOf(w.log, key) == w.Lookup(key);
    if r.None? {
      ghost var h := w.log;
      r := w.Wait(key);
      assert SlotOf(w.log, key) == w.Lookup(key);
      WaitedOnceMore(h, w.log, |old(w.log)|, key, r, retries);
      TouchesChain(old(w.log), h, w.log, {key}, {key});
      assert {key} + {key} == {key};
    } else {
      AnsweredIsOver(w.log, |old(w.log)|, key, r, retries, retries, true);
    }
  }

  datatype Req = Req(key: string, frame: Frame)

  function KeysOf(reqs: seq<Req>): (keys: seq<string>)
    ensures |keys| == |reqs| && forall i :: 0 <= i < |reqs| ==> keys[i] == reqs[i].key
  {
    seq(|reqs|, i requires 0 <= i < |reqs| => reqs[i].key)
  }

  function SetOf(keys: seq<string>): set<string> {
    set i | 0 <= i < |keys| :: keys[i]
  }

  predicate Discovery(keys: seq<string>) {
    Distinct(keys) && forall i :: 0 <= i < |keys| ==> !Foreign(keys[i])
  }

  /** Register several keys. */
  method RegisterAll(w: Waiter, keys: seq<string>)
    requires w.Valid() && Discovery(keys)
    modifies w
    ensures w.Valid() && Touches(old(w.log), w.log, SetOf(keys))
    ensures forall i :: 0 <= i < |keys| ==> JustRegistered(old(w.log), w.log, keys[i]) && Registers(w.log, keys[i])
    ensures OnlyOwn(old(w.log), w.log, Registering)
  {
    for j := 0 to |keys|
      invariant OnlyOwn(old(w.log), w.log, Registering)
      invariant w.Valid() && Touches(old(w.log), w.log, SetOf(keys[..j]))
      invariant forall i :: 0 <= i < j ==> JustRegistered(old(w.log), w.log, keys[i]) && Registers(w.log, keys[i])
    {
      ghost var h := w.log;
      w.Register(keys[j]);
      SteppedIsOwn(h, w.log, Registered(keys[j], true), Registering);
      OnlyOwnChain(old(w.log), h, w.log, Registering);
      OneMore(old(w.log), h, w.log, keys, j);
      assert JustRegistered(old(w.log), w.log, keys[j]);
      forall i | 0 <= i < j
        ensures JustRegistered(old(w.log), w.log, keys[i]) && Registers(w.log, keys[i])
      {
        assert Untouched(h, w.log, keys[i]);
      }
    }
    assert keys[..|keys|] == keys;
  }

  lemma OneMore(a: Log, b: Log, c: Log, keys: seq<string>, j: nat)
    requires j < |keys| && Discovery(keys)
    requires Touches(a, b, SetOf(keys[..j])) && Touches(b, c, {keys[j]})
    ensures Touches(a, c, SetOf(keys[..j + 1]))
    ensures Untouched(a, b, keys[j])
    ensures forall i :: 0 <= i < |keys| && i != j ==> Untouched(b, c, keys[i])
  {
  }

  /** Send several requests. */
  method TransmitAll(w: Waiter, reqs: seq<Req>)
    requires w.Valid() && Discovery(KeysOf(reqs))
    modifies w
    ensures w.Valid() && Touches(old(w.log), w.log, SetOf(KeysOf(reqs)))
    ensures forall i :: 0 <= i < |reqs| ==>
      JustSent(old(w.log), w.log, reqs[i].key) && (Registers(w.log, reqs[i].key) <==> Registers(old(w.log), reqs[i].key))
    ensures OnlyOwn(old(w.log), w.log, Sending)
  {
    ghost var keys := KeysOf(reqs);
    for j := 0 to |reqs|
      invariant OnlyOwn(old(w.log), w.log, Sending)
      invariant w.Valid() && Touches(old(w.log), w.log, SetOf(keys[..j]))
      invariant forall i :: 0 <= i < j ==>
        JustSent(old(w.log), w.log, keys[i]) && (Registers(w.log, keys[i]) <==> Registers(old(w.log), keys[i]))
    {
      ghost var h := w.log;
      w.Transmit(reqs[j].key, reqs[j].frame);
      SteppedIsOwn(h, w.log, Sent(reqs[j].key, reqs[j].frame, true), Sending);
      OnlyOwnChain(old(w.log), h, w.log, Sending);
      OneMore(old(w.log), h, w.log, keys, j);
      assert JustSent(old(w.log), w.log, keys[j]);
      forall i | 0 <= i < j
        ensures JustSent(old(w.log), w.log, keys[i])
      {
        assert Untouched(h, w.log, keys[i]);
      }
    }
    assert keys[..|keys|] == keys;
  }

  /** A wait ended: with the key removed, or with `keep` on an empty slot that was not cancelled. */
  ghost predicate WaitedFor(h: Log, h': Log, key: string, r: Option<Bytes>, keep: bool) {
    JustWaited(h, h', key, Registers(h', key), r) && (Registers(h', key) ==> keep) &&
    (keep && r.None? && !Registers(h', key) && Registers(h, key) ==> WasCancelled(h', |h|, key))
  }

  /** Wait for a key, keeping it or not. */
  method WaitEither(w: Waiter, key: string, keep: bool) returns (r: Option<Bytes>)
    requires w.Valid()
    modifies w
    ensures w.Valid() && Touches(old(w.log), w.log, {key}) && OnlyOwn(old(w.log), w.log, EndingWait)
    ensures WaitedFor(old(w.log), w.log, key, r, keep) && (r.Some? ==> w.allowed(key, r.value))
  {
    if keep {
      r := w.WaitOrKeep(key);
    } else {
      r := w.Wait(key);
    }
    assert SlotOf(w.log, key) == w.Lookup(key);
    SteppedIsOwn(old(w.log), w.log, if key in w.slots then TimedOut(key, true) else Removed(key, true), EndingWait);
    if keep && r.None? && key !in w.slots && Registers(old(w.log), key) {
      ReaderKeeps(old(w.log), Init(w.log), key);
      CancelledAtLast(w.log, |old(w.log)|, key);
    }
  }

  lemma WaitedForBefore(a: Log, b: Log, c: Log, key: string, r: Option<Bytes>, keep: bool)
    requires Extends(a, b) && Extends(b, c) && Untouched(a, b, key) && WaitedFor(b, c, key, r, keep)
    ensures WaitedFor(a, c, key, r, keep)
  {
    if WasCancelled(c, |b|, key) {
      CancelledStill(c, c, |b|, key);
    }
  }

  lemma WaitedForAfter(a: Log, b: Log, c: Log, key: string, r: Option<Bytes>, keep: bool)
    requires Extends(a, b) && Extends(b, c) && Untouched(b, c, key) && WaitedFor(a, b, key, r, keep)
    ensures WaitedFor(a, c, key, r, keep)
  {
    if WasCancelled(b, |a|, key) {
      CancelledStill(b, c, |a|, key);
    }
  }

  /** Wait on several keys in turn; with `keep`, those that time out stay registered. */
  method WaitAll(w: Waiter, keys: seq<string>, keep: bool) returns (rs: seq<Option<Bytes>>)
    requires w.Valid() && Discovery(keys)
    modifies w
    ensures w.Valid() && Touches(old(w.log), w.log, SetOf(keys)) && |rs| == |keys|
    ensures OnlyOwn(old(w.log), w.log, EndingWait)
    ensures forall i :: 0 <= i < |keys| ==>
      WaitedFor(old(w.log), w.log, keys[i], rs[i], keep) && (rs[i].Some? ==> w.allowed(keys[i], rs[i].value))
  {
    rs := [];
    for j := 0 to |keys|
      invariant w.Valid() && Touches(old(w.log), w.log, SetOf(keys[..j])) && |rs| == j
      invariant OnlyOwn(old(w.log), w.log, EndingWait)
      invariant forall i :: 0 <= i < j ==>
        WaitedFor(old(w.log), w.log, keys[i], rs[i], keep) && (rs[i].Some? ==> w.allowed(keys[i], rs[i].value))
    {
      ghost var h := w.log;
      var r := WaitEither(w, keys[j], keep);
      OnlyOwnChain(old(w.log), h, w.log, EndingWait);
      OneMore(old(w.log), h, w.log, keys, j);
      WaitedForBefore(old(w.log), h, w.log, keys[j], r, keep);
      forall i | 0 <= i < j
        ensures WaitedFor(old(w.log), w.log, keys[i], rs[i], keep)
      {
        WaitedForAfter(old(w.log), h, w.log, keys[i], rs[i], keep);
      }
      rs := rs + [r];
    }
    assert keys[..|keys|] == keys;
  }

  /** A key was registered, its request sent, and waited for. */
  ghost predicate ExchangedFor(h: Log, h': Log, key: string, r: Option<Bytes>, keep: bool) {
    JustExchanged(h, h', key, Registers(h', key), r) && (Registers(h', key) ==> keep) &&
    (keep && r.None? && !Registers(h', key) ==> WasCancelled(h', |h|, key))
  }

  lemma ThreeSteps(h: Log, h1: Log, h2: Log, h3: Log, h4: Log, key: string, r: Option<Bytes>, keep: bool)
    requires Extends(h, h1) && Extends(h1, h2) && Extends(h2, h3) && Extends(h3, h4)
    requires Untouched(h, h1, key) && JustRegistered(h1, h2, key) && Registers(h2, key)
    requires JustSent(h2, h3, key) && Registers(h3, key) && WaitedFor(h3, h4, key, r, keep)
    ensures ExchangedFor(h, h4, key, r, keep)
  {
    if WasCancelled(h4, |h3|, key) {
      CancelledStill(h4, h4, |h3|, key);
    }
  }

  /** Several requests at once: register all, send all, wait on each. */
  method AskTogether(w: Waiter, reqs: seq<Req>, keep: bool) returns (rs: seq<Option<Bytes>>)
    requires w.Valid() && NestedFree(w.log) && Discovery(KeysOf(reqs))
    modifies w
    ensures w.Valid() && Touches(old(w.log), w.log, SetOf(KeysOf(reqs))) && |rs| == |reqs|
    ensures exists m, n :: Pipelined(old(w.log), w.log, m, n)
    ensures forall i :: 0 <= i < |reqs| ==>
      ExchangedFor(old(w.log), w.log, reqs[i].key, rs[i], keep) && (rs[i].Some? ==> w.allowed(reqs[i].key, rs[i].value))
  {
    var keys := KeysOf(reqs);
    w.OthersRun();
    ghost var h1 := w.log;
    RegisterAll(w, keys);
    ghost var h2 := w.log;
    TransmitAll(w, reqs);
    ghost var h3 := w.log;
    rs := WaitAll(w, keys, keep);
    PhasesArePipelined(old(w.log), h1, h2, h3, w.log);
    TouchesChain(old(w.log), h1, h2, {}, SetOf(keys));
    TouchesChain(old(w.log), h2, h3, {} + SetOf(keys), SetOf(keys));
    TouchesChain(old(w.log), h3, w.log, {} + SetOf(keys) + SetOf(keys), SetOf(keys));
    assert {} + SetOf(keys) + SetOf(keys) + SetOf(keys) == SetOf(keys);
    forall i | 0 <= i < |reqs|
      ensures ExchangedFor(old(w.log), w.log, reqs[i].key, rs[i], keep)
    {
      assert Untouched(old(w.log), h1, keys[i]);
      assert JustRegistered(h1, h2, keys[i]) && JustSent(h2, h3, reqs[i].key);
      ThreeSteps(old(w.log), h1, h2, h3, w.log, keys[i], rs[i], keep);
    }
  }

  // ----- batches with retries

  /** The positions not answered yet, in order. */
  function Unanswered(out: seq<Option<Bytes>>): (open: seq<nat>)
    ensures forall i, j :: 0 <= i < j < |open| ==> open[i] < open[j]
    ensures forall j :: 0 <= j < |open| ==> open[j] < |out| && out[open[j]].None?
    ensures forall i :: 0 <= i < |out| && out[i].None? ==> i in open
  {
    if out == [] then []
    else
      var rest := Unanswered(out[..|out| - 1]);
      assert forall i :: 0 <= i < |out| - 1 ==> out[..|out| - 1][i] == out[i];
      if out[|out| - 1].None? then rest + [|out| - 1] else rest
  }

  function Pick(reqs: seq<Req>, at: seq<nat>): (picked: seq<Req>)
    requires forall j :: 0 <= j < |at| ==> at[j] < |reqs|
    ensures |picked| == |at| && forall j :: 0 <= j < |at| ==> picked[j] == reqs[at[j]]
  {
    seq(|at|, j requires 0 <= j < |at| => reqs[at[j]])
  }

  /** Put the replies in their places. */
  method Place(out: seq<Option<Bytes>>, at: seq<nat>, rs: seq<Option<Bytes>>) returns (placed: seq<Option<Bytes>>)
    requires |rs| == |at|
    requires forall i, j :: 0 <= i < j < |at| ==> at[i] < at[j]
    requires forall j :: 0 <= j < |at| ==> at[j] < |out|
    ensures |placed| == |out|
    ensures forall j :: 0 <= j < |at| ==> placed[at[j]] == rs[j]
    ensures forall i :: 0 <= i < |out| && i !in at ==> placed[i] == out[i]
  {
    placed := out;
    for n := 0 to |at|
      invariant |placed| == |out|
      invariant forall j :: 0 <= j < n ==> placed[at[j]] == rs[j]
      invariant forall i :: 0 <= i < |out| && i !in at ==> placed[i] == out[i]
    {
      placed := placed[at[n] := rs[n]];
    }
  }

  lemma PickedKeys(reqs: seq<Req>, at: seq<nat>)
    requires Discovery(KeysOf(reqs))
    requires forall i, j :: 0 <= i < j < |at| ==> at[i] < at[j]
    requires forall j :: 0 <= j < |at| ==> at[j] < |reqs|
    ensures Discovery(KeysOf(Pick(reqs, at)))
    ensures SetOf(KeysOf(Pick(reqs, at))) <= SetOf(KeysOf(reqs))
    ensures forall i :: 0 <= i < |reqs| && i !in at ==> reqs[i].key !in SetOf(KeysOf(Pick(reqs, at)))
  {
  }

  /** One round of a batch: what is unanswered is asked once, and waited on. */
  method Round(w: Waiter, reqs: seq<Req>, out: seq<Option<Bytes>>, keep: bool, ghost n: nat, ghost tries: nat)
      returns (next: seq<Option<Bytes>>)
    requires w.Valid() && NestedFree(w.log) && Discovery(KeysOf(reqs)) && |out| == |reqs| && n <= |w.log|
    requires AllSoFar(w, reqs, out, n, tries, false)
    modifies w
    ensures w.Valid() && Touches(old(w.log), w.log, SetOf(KeysOf(reqs))) && |next| == |reqs|
    ensures AllSoFar(w, reqs, next, n, tries + 1, keep)
  {
    var open := Unanswered(out);
    PickedKeys(reqs, open);
    var rs := AskTogether(w, Pick(reqs, open), keep);
    TouchesFewer(old(w.log), w.log, SetOf(KeysOf(Pick(reqs, open))), SetOf(KeysOf(reqs)));
    next := Place(out, open, rs);
    forall i | 0 <= i < |reqs|
      ensures SoFar(w.log, n, reqs[i].key, next[i], tries + 1, keep)
      ensures next[i].Some? ==> w.allowed(reqs[i].key, next[i].value)
    {
      assert SoFar(old(w.log), n, reqs[i].key, out[i], tries, false);
      if i in open {
        var j :| 0 <= j < |open| && open[j] == i;
        assert ExchangedFor(old(w.log), w.log, Pick(reqs, open)[j].key, rs[j], keep);
        AskedOnceMore(old(w.log), w.log, n, reqs[i].key, rs[j], tries, keep);
      } else {
        assert Untouched(old(w.log), w.log, KeysOf(reqs)[i]);
        SoFarStays(old(w.log), w.log, n, reqs[i].key, out[i], tries, false);
        AnsweredStays(w.log, n, reqs[i].key, out[i], tries, keep);
      }
    }
  }

  lemma AnsweredStays(h: Log, n: nat, key: string, r: Option<Bytes>, tries: nat, keep: bool)
    requires SoFar(h, n, key, r, tries, false) && r.Some?
    ensures SoFar(h, n, key, r, tries + 1, keep)
  {
  }

  /** Where a batch stands after so many rounds. */
  ghost predicate AllSoFar(w: Waiter, reqs: seq<Req>, out: seq<Option<Bytes>>, n: nat, tries: nat, keep: bool)
    reads w
  {
    |out| == |reqs| &&
    forall i :: 0 <= i < |reqs| ==>
      SoFar(w.log, n, reqs[i].key, out[i], tries, keep) && (out[i].Some? ==> w.allowed(reqs[i].key, out[i].value))
  }

  /** Every request of a batch is over. */
  ghost predicate AllOver(w: Waiter, reqs: seq<Req>, out: seq<Option<Bytes>>, n: nat, tries: nat)
    reads w
  {
    |out| == |reqs| &&
    forall i :: 0 <= i < |reqs| ==>
      Over(w.log, n, reqs[i].key, out[i], tries) && (out[i].Some? ==> w.allowed(reqs[i].key, out[i].value))
  }

  /** Wait once more on what is still unanswered. */
  method CollectLate(w: Waiter, reqs: seq<Req>, out: seq<Option<Bytes>>, ghost n: nat, ghost tries: nat)
      returns (next: seq<Option<Bytes>>)
    requires w.Valid() && Discovery(KeysOf(reqs)) && |out| == |reqs| && n <= |w.log|
    requires AllSoFar(w, reqs, out, n, tries, true)
    modifies w
    ensures w.Valid() && Touches(old(w.log), w.log, SetOf(KeysOf(reqs))) && |next| == |reqs|
    ensures AllOver(w, reqs, next, n, tries)
  {
    var open := Unanswered(out);
    PickedKeys(reqs, open);
    var keys := KeysOf(Pick(reqs, open));
    var rs := WaitAll(w, keys, false);
    TouchesFewer(old(w.log), w.log, SetOf(keys), SetOf(KeysOf(reqs)));
    next := Place(out, open, rs);
    forall i | 0 <= i < |reqs|
      ensures Over(w.log, n, reqs[i].key, next[i], tries)
      ensures next[i].Some? ==> w.allowed(reqs[i].key, next[i].value)
    {
      assert SoFar(old(w.log), n, reqs[i].key, out[i], tries, true);
      if i in open {
        var j :| 0 <= j < |open| && open[j] == i;
        assert WaitedFor(old(w.log), w.log, keys[j], rs[j], false);
        WaitedOnceMore(old(w.log), w.log, n, reqs[i].key, rs[j], tries);
      } else {
        assert Untouched(old(w.log), w.log, KeysOf(reqs)[i]);
        SoFarStays(old(w.log), w.log, n, reqs[i].key, out[i], tries, true);
        AnsweredIsOver(w.log, n, reqs[i].key, out[i], tries, tries, true);
      }
    }
  }

  /** Several requests at once, each patient: all are sent and waited on together, and what is unanswered
      is sent again. Replies are in the order of `reqs`. */
  method ReqAll(w: Waiter, reqs: seq<Req>, retries: nat) returns (out: seq<Option<Bytes>>)
    requires w.Valid() && NestedFree(w.log) && Discovery(KeysOf(reqs))
    requires forall i :: 0 <= i < |reqs| ==> reqs[i].key !in w.slots
    modifies w
    ensures w.Valid() && Touches(old(w.log), w.log, SetOf(KeysOf(reqs)))
    ensures AllOver(w, reqs, out, |old(w.log)|, retries)
    ensures forall i :: 0 <= i < |reqs| && out[i].Some? ==> Heard(w.log, |old(w.log)|, reqs[i].key, out[i].value)
  {
    ghost var n := |w.log|;
    ghost var keys := SetOf(KeysOf(reqs));
    AllFresh(w, reqs, retries == 0);
    out := seq(|reqs|, _ => None);
    var attempt := 0;
    while attempt < retries
      invariant 0 <= attempt <= retries && w.Valid() && |out| == |reqs| && n <= |w.log|
      invariant Touches(old(w.log), w.log, keys) && (attempt < retries ==> NestedFree(w.log))
      invariant AllSoFar(w, reqs, out, n, attempt, attempt == retries)
    {
      if forall i :: 0 <= i < |out| ==> out[i].Some? {
        AllAnsweredAreOver(w, reqs, out, n, attempt, retries);
        RepliesHeard(w, old(w.log), reqs, out, retries);
        return;
      }
      ghost var h := w.log;
      out := Round(w, reqs, out, attempt + 1 == retries, n, attempt);
      if attempt + 1 < retries {
        AllFree(w, h, reqs);
      }
      TouchesChain(old(w.log), h, w.log, keys, keys);
      assert keys + keys == keys;
      attempt := attempt + 1;
    }
    ghost var h := w.log;
    out := CollectLate(w, reqs, out, n, retries);
    TouchesChain(old(w.log), h, w.log, keys, keys);
    assert keys + keys == keys;
    RepliesHeard(w, old(w.log), reqs, out, retries);
  }

  lemma AllFresh(w: Waiter, reqs: seq<Req>, keep: bool)
    requires w.Valid() && forall i :: 0 <= i < |reqs| ==> reqs[i].key !in w.slots
    ensures forall i :: 0 <= i < |reqs| ==> !Registers(w.log, reqs[i].key) && TraceOf(w.log, |w.log|, reqs[i].key) == NOTHING
    ensures AllSoFar(w, reqs, seq(|reqs|, _ => None), |w.log|, 0, keep)
  {
    forall i | 0 <= i < |reqs|
      ensures !Registers(w.log, reqs[i].key) && TraceOf(w.log, |w.log|, reqs[i].key) == NOTHING
    {
      assert SlotOf(w.log, reqs[i].key) == w.Lookup(reqs[i].key);
    }
  }

  lemma AllAnsweredAreOver(w: Waiter, reqs: seq<Req>, out: seq<Option<Bytes>>, n: nat, tries: nat, all: nat)
    requires AllSoFar(w, reqs, out, n, tries, false) && tries <= all && forall i :: 0 <= i < |out| ==> out[i].Some?
    ensures AllOver(w, reqs, out, n, all)
  {
    forall i | 0 <= i < |reqs|
      ensures Over(w.log, n, reqs[i].key, out[i], all)
    {
      AnsweredIsOver(w.log, n, reqs[i].key, out[i], tries, all, false);
    }
  }

  /** A round that left none of its keys registered leaves the turn's keys free. */
  lemma AllFree(w: Waiter, h: Log, reqs: seq<Req>)
    requires w.Valid() && NestedFree(h) && Touches(h, w.log, SetOf(KeysOf(reqs)))
    requires forall i :: 0 <= i < |reqs| ==> !Registers(w.log, reqs[i].key)
    ensures NestedFree(w.log)
  {
    forall k | k in SetOf(KeysOf(reqs))
      ensures !Registers(w.log, k)
    {
      var i :| 0 <= i < |reqs| && k == KeysOf(reqs)[i];
    }
    NestedFreeKept(h, w.log, SetOf(KeysOf(reqs)));
  }

  /** Replies to keys that were not registered before came during the call. */
  lemma RepliesHeard(w: Waiter, h: Log, reqs: seq<Req>, out: seq<Option<Bytes>>, tries: nat)
    requires Extends(h, w.log) && |out| == |reqs|
    requires AllOver(w, reqs, out, |h|, tries) && forall i :: 0 <= i < |reqs| ==> !Registers(h, reqs[i].key)
    ensures forall i :: 0 <= i < |reqs| && out[i].Some? ==> Heard(w.log, |h|, reqs[i].key, out[i].value)
  {
    forall i | 0 <= i < |reqs| && out[i].Some?
      ensures Heard(w.log, |h|, reqs[i].key, out[i].value)
    {
      assert Over(w.log, |h|, reqs[i].key, out[i], tries) && w.log[..|h|] == h;
      GotWasHeard(w.log, |h|, reqs[i].key);
    }
  }

  /** The first requests have been asked since `h0`, the others not yet. */
  ghost predicate InTurn(w: Waiter, h0: Log, reqs: seq<Req>, out: seq<Option<Bytes>>, retries: nat)
    reads w
  {
    |out| <= |reqs| && Touches(h0, w.log, SetOf(KeysOf(reqs)[..|out|])) && AllSoFar(w, reqs[..|out|], out, |h0|, retries, true) &&
    forall i :: |out| <= i < |reqs| ==> !Registers(w.log, reqs[i].key) && TraceOf(w.log, |h0|, reqs[i].key) == NOTHING
  }

  /** Ask the next of several requests. */
  method AskNext(w: Waiter, reqs: seq<Req>, out: seq<Option<Bytes>>, retries: nat, ghost h0: Log)
      returns (next: seq<Option<Bytes>>)
    requires w.Valid() && NestedFree(w.log) && Discovery(KeysOf(reqs)) && |out| < |reqs|
    requires !Nested(reqs[|out|].key) && InTurn(w, h0, reqs, out, retries)
    modifies w
    ensures w.Valid() && NestedFree(w.log) && |next| == |out| + 1 && InTurn(w, h0, reqs, next, retries)
  {
    ghost var h := w.log;
    var req := reqs[|out|];
    assert SlotOf(w.log, req.key) == w.Lookup(req.key);
    var r := ReqWith(w, req.key, req.frame, retries, true);
    NestedFreeKept(h, w.log, {req.key});
    OneMore(h0, h, w.log, KeysOf(reqs), |out|);
    NowSoFar(h0, h, w.log, req.key, r, retries);
    next := out + [r];
    forall i | 0 <= i < |out|
      ensures SoFar(w.log, |h0|, reqs[i].key, next[i], retries, true)
      ensures next[i].Some? ==> w.allowed(reqs[i].key, next[i].value)
    {
      assert reqs[..|out|][i] == reqs[i];
      assert Untouched(h, w.log, KeysOf(reqs)[i]);
      SoFarStays(h, w.log, |h0|, reqs[i].key, out[i], retries, true);
    }
    forall i | |next| <= i < |reqs|
      ensures !Registers(w.log, reqs[i].key) && TraceOf(w.log, |h0|, reqs[i].key) == NOTHING
    {
      assert Untouched(h, w.log, KeysOf(reqs)[i]);
    }
    assert forall i :: 0 <= i < |next| ==> reqs[..|next|][i] == reqs[i];
  }

  /** A request that was not asked before `h` stands where it stands since `h`. */
  lemma NowSoFar(h0: Log, h: Log, h': Log, key: string, r: Option<Bytes>, retries: nat)
    requires Extends(h0, h) && Extends(h, h') && TraceOf(h, |h0|, key) == NOTHING && SoFar(h', |h|, key, r, retries, true)
    ensures SoFar(h', |h0|, key, r, retries, true)
  {
    TraceFrom(h', |h0|, |h|, key);
    if WasCancelled(h', |h|, key) {
      CancelledStill(h', h', |h|, key);
    }
  }

  /** Requests one after another, each asked with retries; what comes after its attempts were given up is
      collected after the others, in its place. */
  method AskInTurn(w: Waiter, reqs: seq<Req>, retries: nat) returns (out: seq<Option<Bytes>>)
    requires w.Valid() && NestedFree(w.log) && Discovery(KeysOf(reqs))
    requires forall i :: 0 <= i < |reqs| ==> reqs[i].key !in w.slots && !Nested(reqs[i].key)
    modifies w
    ensures w.Valid() && Touches(old(w.log), w.log, SetOf(KeysOf(reqs)))
    ensures AllOver(w, reqs, out, |old(w.log)|, retries)
    ensures forall i :: 0 <= i < |reqs| && out[i].Some? ==> Heard(w.log, |old(w.log)|, reqs[i].key, out[i].value)
  {
    ghost var n := |w.log|;
    ghost var keys := KeysOf(reqs);
    AllFresh(w, reqs, true);
    out := [];
    for j := 0 to |reqs|
      invariant w.Valid() && NestedFree(w.log) && |out| == j && InTurn(w, old(w.log), reqs, out, retries)
    {
      out := AskNext(w, reqs, out, retries, old(w.log));
    }
    assert keys[..|keys|] == keys && reqs[..|reqs|] == reqs;
    ghost var h := w.log;
    out := CollectLate(w, reqs, out, n, retries);
    TouchesChain(old(w.log), h, w.log, SetOf(keys), SetOf(keys));
    assert SetOf(keys) + SetOf(keys) == SetOf(keys);
    RepliesHeard(w, old(w.log), reqs, out, retries);
  }
}
