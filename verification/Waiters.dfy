/** Request and response correlation, shared by the requesting thread and the reader. */
module Waiters {
  import opened Prelude
  import opened Tab
  import opened WaiterLog

  /** A step of the scheduler's turn: a value read begins or ends, or one attempt at another request is made. */
  datatype TurnStep = TurnStep(addr: Addr, r: Request, ends: bool)

  /** A string-keyed waiter. Between any two steps of the requester, the reader may deliver anything
      the bus allows, any number of times and in any order, or cancel everything. */
  class Waiter {
    var slots: map<string, Slot>
    /** Everything that happened, oldest first. */
    ghost var log: Log
    /** The payloads that can arrive under a key on this bus. */
    const allowed: (string, Bytes) -> bool

    ghost predicate Valid()
      reads this
    {
      (forall k :: SlotOf(log, k) == Lookup(k)) &&
      forall i :: 0 <= i < |log| && log[i].Delivered? ==> allowed(log[i].key, log[i].data)
    }

    function Lookup(k: string): Option<Slot>
      reads this
    {
      if k in slots then Some(slots[k]) else None
    }

    constructor (allowed: (string, Bytes) -> bool)
      ensures Valid() && log == [] && slots == map[] && this.allowed == allowed
    {
      slots, log := map[], [];
      this.allowed := allowed;
    }

    // ----- the reader's steps

    /** Fill a registered key's slot, over what it held; a key nobody registered is ignored. */
    method Deliver(key: string, data: Bytes)
      requires Valid() && allowed(key, data)
      modifies this
      ensures Valid() && log == old(log) + [Delivered(key, data)]
    {
      if key in slots {
        slots := slots[key := slots[key].(data := Some(data))];
      }
      log := log + [Delivered(key, data)];
      assert Init(log) == old(log);
    }

    method CancelAll()
      requires Valid()
      modifies this
      ensures Valid() && log == old(log) + [Cancelled]
    {
      slots := map k | k in slots :: slots[k].(cancelled := true);
      log := log + [Cancelled];
      assert Init(log) == old(log);
    }

    /** The reader runs for a while. */
    method ReaderRuns()
      requires Valid()
      modifies this
      ensures Valid() && ReaderExtends(old(log), log)
    {
      var arrivals: seq<Event> := *;
      for i := 0 to |arrivals|
        invariant Valid() && ReaderExtends(old(log), log)
      {
        match arrivals[i]
        case Delivered(k, d) =>
          if allowed(k, d) {
            Deliver(k, d);
          }
        case Cancelled => CancelAll();
        case _ =>
      }
    }

    /** The scheduler's turn: value reads in any order and number, strings fetched and access levels read on
        the way, and the reader. */
    method OthersRun()
      requires Valid() && NestedFree(log)
      modifies this
      ensures Valid() && NestedFree(log) && TurnEvents(old(log), log) && Touches(old(log), log, {})
    {
      var steps: seq<TurnStep> := *;
      for i := 0 to |steps|
        invariant Valid() && NestedFree(log) && TurnEvents(old(log), log)
      {
        TurnStepRuns(steps[i], old(log));
      }
      ghost var h := log;
      ReaderRuns();
      ReaderTouchesNothing(h, log, {});
      NestedFreeKept(h, log, {});
      TurnTouchesNothing(old(log), log);
    }

    method TurnStepRuns(step: TurnStep, ghost before: Log)
      requires Valid() && NestedFree(log) && TurnEvents(before, log)
      modifies this
      ensures Valid() && NestedFree(log) && TurnEvents(before, log)
    {
      var key, frame := Key(step.addr, step.r), Encode(step.addr, step.r);
      KeyFamily(step.addr, step.r);
      NestedIff(step.addr, step.r);
      if step.r.Value? && step.ends {
        Meanwhile(Removed(key, false));
        TurnGoesOn(before, old(log), log, key);
      } else if step.r.Value? || TurnAsks(step.r) {
        Meanwhile(Registered(key, false));
        ghost var h1 := log;
        Meanwhile(Sent(key, frame, false));
        TurnOnChain(old(log), h1, log, key);
        if TurnAsks(step.r) {
          ghost var h2 := log;
          Meanwhile(Removed(key, false));
          TurnOnChain(old(log), h2, log, key);
        }
        TurnGoesOn(before, old(log), log, key);
      }
    }

    /** The reader, then one step of the scheduler's own. */
    method Meanwhile(e: Event)
      requires Valid() && !ReaderEvent(e) && !e.own
      modifies this
      ensures Valid() && TurnOn(old(log), log, e.key)
      ensures e.Removed? ==> !Registers(log, e.key)
    {
      ReaderRuns();
      if e.Registered? {
        slots := slots[e.key := Slot(None, false)];
      } else if e.Removed? {
        slots := slots - {e.key};
      }
      Note(e);
    }

    /** Write down a step of the requester just taken. */
    ghost method Note(e: Event)
      requires !e.Delivered?
      requires forall k :: NextSlot(SlotOf(log, k), e, k) == Lookup(k)
      requires forall i :: 0 <= i < |log| && log[i].Delivered? ==> allowed(log[i].key, log[i].data)
      modifies this`log
      ensures Valid() && log == old(log) + [e] && Init(log) == old(log)
    {
      log := log + [e];
      assert Init(log) == old(log);
    }

    // ----- the requester's steps

    /** Register interest in a key, with an empty slot. */
    method Register(key: string)
      requires Valid()
      modifies this
      ensures Valid() && Stepped(old(log), log, Registered(key, true)) && Touches(old(log), log, {key})
      ensures SlotOf(log, key) == Some(Slot(None, false))
      ensures JustRegistered(old(log), log, key)
    {
      ReaderRuns();
      slots := slots[key := Slot(None, false)];
      Note(Registered(key, true));
      SteppedOwn(old(log), log, Registered(key, true), key);
      SteppedOther(old(log), log, Registered(key, true));
    }

    /** Send the request whose reply comes under a key. */
    method Transmit(key: string, frame: Frame)
      requires Valid()
      modifies this
      ensures Valid() && Stepped(old(log), log, Sent(key, frame, true)) && Touches(old(log), log, {key})
      ensures SlotOf(log, key).Some? <==> SlotOf(old(log), key).Some?
      ensures JustSent(old(log), log, key)
    {
      ReaderRuns();
      Note(Sent(key, frame, true));
      SteppedOwn(old(log), log, Sent(key, frame, true), key);
      SteppedOther(old(log), log, Sent(key, frame, true));
    }

    /** Let the reader run until the key's slot is filled or cancelled, or time is up. */
    method WaitWhileOpen(key: string)
      requires Valid()
      modifies this
      ensures Valid() && ReaderExtends(old(log), log)
    {
      ReaderRuns();
      var ticks: nat := *;
      while ticks > 0 && Open(Lookup(key))
        invariant Valid() && ReaderExtends(old(log), log)
      {
        ReaderRuns();
        ticks := ticks - 1;
      }
    }

    /** Remove a key and return what its slot held. */
    method Take(key: string) returns (r: Option<Bytes>)
      requires Valid()
      modifies this
      ensures Valid() && Stepped(old(log), log, Removed(key, true)) && Init(log) == old(log)
      ensures r == Outcome(SlotOf(old(log), key))
    {
      r := Outcome(Lookup(key));
      slots := slots - {key};
      Note(Removed(key, true));
    }

    /** Wait for a key; it is unregistered on return, answered or not. */
    method Wait(key: string) returns (r: Option<Bytes>)
      requires Valid()
      modifies this
      ensures Valid() && Stepped(old(log), log, Removed(key, true)) && Touches(old(log), log, {key})
      ensures r == Outcome(SlotOf(Init(log), key)) && key !in slots
      ensures JustWaited(old(log), log, key, false, r)
      ensures r.Some? ==> allowed(key, r.value)
    {
      WaitWhileOpen(key);
      ghost var h := log;
      r := Take(key);
      SteppedOwn(old(log), log, Removed(key, true), key);
      SteppedOther(old(log), log, Removed(key, true));
      if r.Some? {
        OutcomeAllowed(h, key);
      }
      assert SlotOf(log, key) == Lookup(key);
    }

    /** Wait for a key; when time runs out on an empty slot, the key stays registered. */
    method WaitOrKeep(key: string) returns (r: Option<Bytes>)
      requires Valid()
      modifies this
      ensures Valid() && Touches(old(log), log, {key})
      ensures key in slots ==>
        r == None && Open(SlotOf(log, key)) && Stepped(old(log), log, TimedOut(key, true))
      ensures key !in slots ==>
        Stepped(old(log), log, Removed(key, true)) && !Open(SlotOf(Init(log), key)) && r == Outcome(SlotOf(Init(log), key))
      ensures JustWaited(old(log), log, key, key in slots, r)
      ensures r.Some? ==> allowed(key, r.value)
    {
      WaitWhileOpen(key);
      ghost var h := log;
      if Open(Lookup(key)) {
        r := None;
        Note(TimedOut(key, true));
        SteppedOwn(old(log), log, TimedOut(key, true), key);
        SteppedOther(old(log), log, TimedOut(key, true));
        assert SlotOf(log, key) == Lookup(key);
      } else {
        r := Take(key);
        SteppedOwn(old(log), log, Removed(key, true), key);
        SteppedOther(old(log), log, Removed(key, true));
        if r.Some? {
          OutcomeAllowed(h, key);
        }
        assert SlotOf(log, key) == Lookup(key);
      }
    }

    /** Wait until one of the keys is answered, cancelled or gone; it is left for `Wait` to collect. */
    method WaitAny(keys: seq<string>) returns (r: Option<nat>)
      requires Valid()
      modifies this
      ensures Valid() && ReaderExtends(old(log), log) && slots.Keys == old(slots.Keys)
      ensures match r
        case Some(i) => i < |keys| && !Open(Lookup(keys[i])) && forall j :: 0 <= j < i ==> Open(Lookup(keys[j]))
        case None => forall j :: 0 <= j < |keys| ==> Open(Lookup(keys[j]))
    {
      ReaderRuns();
      var ticks: nat := *;
      r := FirstReady(keys);
      while ticks > 0 && r.None?
        invariant Valid() && ReaderExtends(old(log), log)
        invariant match r
          case Some(i) => i < |keys| && !Open(Lookup(keys[i])) && forall j :: 0 <= j < i ==> Open(Lookup(keys[j]))
          case None => forall j :: 0 <= j < |keys| ==> Open(Lookup(keys[j]))
      {
        ReaderRuns();
        ticks := ticks - 1;
        r := FirstReady(keys);
      }
      forall k
        ensures k in slots <==> k in old(slots)
      {
        ReaderKeeps(old(log), log, k);
        assert SlotOf(log, k) == Lookup(k) && SlotOf(old(log), k) == old(Lookup(k));
      }
    }

    method FirstReady(keys: seq<string>) returns (r: Option<nat>)
      ensures match r
        case Some(i) => i < |keys| && !Open(Lookup(keys[i])) && forall j :: 0 <= j < i ==> Open(Lookup(keys[j]))
        case None => forall j :: 0 <= j < |keys| ==> Open(Lookup(keys[j]))
    {
      for i := 0 to |keys|
        invariant forall j :: 0 <= j < i ==> Open(Lookup(keys[j]))
      {
        if !Open(Lookup(keys[i])) {
          return Some(i);
        }
      }
      r := None;
    }

    lemma {:induction false} OutcomeAllowed(h: Log, key: string)
      requires SlotOf(h, key).Some? && SlotOf(h, key).value.data.Some?
      requires forall i :: 0 <= i < |h| && h[i].Delivered? ==> allowed(h[i].key, h[i].data)
      ensures allowed(key, SlotOf(h, key).value.data.value)
    {
      if !(Last(h).Delivered? && Last(h).key == key) {
        OutcomeAllowed(Init(h), key);
      }
    }
  }
}
