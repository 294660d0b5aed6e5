/** Presence events, and the order devices are identified in. */
module Liveness {
  import opened Prelude

  datatype Presence = Alive(id: nat) | Offline(id: nat)

  // ----- the liveness diff

  function Applied(alive: set<nat>, e: Presence): set<nat> {
    match e
    case Alive(id) => alive + {id}
    case Offline(id) => alive - {id}
  }

  /** The devices a listener to the events takes to be alive. */
  function Replay(events: seq<Presence>): set<nat> {
    if events == [] then {} else Applied(Replay(events[..|events| - 1]), events[|events| - 1])
  }

  predicate Changes(alive: set<nat>, e: Presence) {
    match e
    case Alive(id) => id !in alive
    case Offline(id) => id in alive
  }

  /** Every event says something new. */
  predicate Orderly(events: seq<Presence>) {
    forall i :: 0 <= i < |events| ==> Changes(Replay(events[..i]), events[i])
  }

  lemma OneMoreEvent(events: seq<Presence>, e: Presence)
    ensures Replay(events + [e]) == Applied(Replay(events), e)
    ensures Orderly(events) && Changes(Replay(events), e) ==> Orderly(events + [e])
  {
    var more := events + [e];
    assert more[..|events|] == events;
    forall i | 0 <= i < |events|
      ensures more[..i] == events[..i] && more[i] == events[i]
    {
    }
  }

  /** Send one event. */
  method Tell(before: seq<Presence>, e: Presence) returns (events: seq<Presence>)
    requires Orderly(before) && Changes(Replay(before), e)
    ensures Orderly(events) && before <= events && |events| == |before| + 1
    ensures Replay(events) == Applied(Replay(before), e)
  {
    OneMoreEvent(before, e);
    events := before + [e];
  }

  lemma OneLess(ids: set<nat>, left: set<nat>, id: nat)
    requires left <= ids && id in left
    ensures ids - (left - {id}) == (ids - left) + {id} && |left - {id}| == |left| - 1
  {
  }

  /** Tell of devices that have come, in any order. */
  method TellAlive(before: seq<Presence>, ids: set<nat>) returns (events: seq<Presence>)
    requires Orderly(before) && forall id :: id in ids ==> id !in Replay(before)
    ensures Orderly(events) && before <= events && |events| == |before| + |ids|
    ensures Replay(events) == Replay(before) + ids
  {
    events := before;
    var left := ids;
    while left != {}
      invariant left <= ids && Orderly(events) && before <= events && |events| == |before| + |ids| - |left|
      invariant Replay(events) == Replay(before) + (ids - left)
      decreases |left|
    {
      var id :| id in left;
      Come(Replay(before), ids, left, id);
      left := left - {id};
      events := Tell(events, Alive(id));
    }
  }

  lemma Come(alive: set<nat>, ids: set<nat>, left: set<nat>, id: nat)
    requires left <= ids && id in left && id !in alive
    ensures id !in alive + (ids - left)
    ensures alive + (ids - left) + {id} == alive + (ids - (left - {id})) && |left - {id}| == |left| - 1
  {
  }

  /** Tell of devices that have gone, in any order. */
  method TellOffline(before: seq<Presence>, ids: set<nat>) returns (events: seq<Presence>)
    requires Orderly(before) && ids <= Replay(before)
    ensures Orderly(events) && before <= events && |events| == |before| + |ids|
    ensures Replay(events) == Replay(before) - ids
  {
    events := before;
    var left := ids;
    while left != {}
      invariant left <= ids && Orderly(events) && before <= events && |events| == |before| + |ids| - |left|
      invariant Replay(events) == Replay(before) - (ids - left)
      decreases |left|
    {
      var id :| id in left;
      OneLess(ids, left, id);
      left := left - {id};
      events := Tell(events, Offline(id));
    }
  }

  /** Tell of each change from one set to the next, once. */
  method Diff(alive: set<nat>, now: set<nat>, before: seq<Presence>) returns (events: seq<Presence>)
    requires Orderly(before) && Replay(before) == alive
    ensures Orderly(events) && Replay(events) == now && before <= events
    ensures |events| == |before| + |now - alive| + |alive - now|
  {
    events := TellAlive(before, now - alive);
    events := TellOffline(events, alive - now);
    assert alive + (now - alive) - (alive - now) == now;
  }

  /** The reader's passes: whatever sets of devices are alive in turn, the events replay to each of them, and
      only changes are told. `marks` is how many events there are after each pass. */
  method ReaderPasses(history: seq<set<nat>>) returns (events: seq<Presence>, marks: seq<nat>)
    ensures Orderly(events) && |marks| == |history|
    ensures forall i :: 0 <= i < |history| ==> marks[i] <= |events| && Replay(events[..marks[i]]) == history[i]
    ensures Replay(events) == if history == [] then {} else history[|history| - 1]
  {
    events, marks := [], [];
    var alive := {};
    for n := 0 to |history|
      invariant alive == if n == 0 then {} else history[n - 1]
      invariant Orderly(events) && Replay(events) == alive && |marks| == n
      invariant forall i :: 0 <= i < n ==> marks[i] <= |events| && Replay(events[..marks[i]]) == history[i]
    {
      var more := Diff(alive, history[n], events);
      assert forall i :: 0 <= i < n ==> more[..marks[i]] == events[..marks[i]];
      assert more[..|more|] == more;
      events := more;
      marks := marks + [|events|];
      alive := history[n];
    }
  }

  /** With no event about a device in between, it stays as it was. */
  lemma {:induction false} Unmentioned(events: seq<Presence>, id: nat, i: nat, j: nat)
    requires i <= j <= |events| && forall k :: i <= k < j ==> events[k].id != id
    ensures id in Replay(events[..j]) <==> id in Replay(events[..i])
  {
    if i < j {
      Unmentioned(events, id, i, j - 1);
      assert events[..j][..j - 1] == events[..j - 1];
    }
  }

  /** A device's events alternate, beginning with Alive. */
  lemma EventsAlternate(events: seq<Presence>, i: nat, j: nat)
    requires Orderly(events) && i < j < |events| && events[i].id == events[j].id
    requires forall k :: i < k < j ==> events[k].id != events[i].id
    ensures events[i].Alive? <==> events[j].Offline?
  {
    var id := events[i].id;
    Unmentioned(events, id, i + 1, j);
    assert events[..i + 1][..i] == events[..i];
  }

  lemma FirstIsAlive(events: seq<Presence>, i: nat)
    requires Orderly(events) && i < |events| && forall k :: 0 <= k < i ==> events[k].id != events[i].id
    ensures events[i].Alive?
  {
    Unmentioned(events, events[i].id, 0, i);
  }

  // ----- identifying devices

  /** What `walk` calls. */
  datatype Call = Batch(ids: seq<nat>) | Identify(id: nat, late: bool) | Walked

  const AT_ONCE: nat := 5

  function Least(a: nat, b: nat): nat {
    if a < b then a else b
  }

  function Identified(ids: seq<nat>, late: bool): (calls: seq<Call>)
    ensures |calls| == |ids| && forall i :: 0 <= i < |ids| ==> calls[i] == Identify(ids[i], late)
  {
    seq(|ids|, i requires 0 <= i < |ids| => Identify(ids[i], late))
  }

  /** Batches of at most five, each fetched together and then made ready one by one. */
  function Batches(ids: seq<nat>): seq<Call> {
    if ids == [] then []
    else
      var n := Least(AT_ONCE, |ids|);
      [Batch(ids[..n])] + Identified(ids[..n], false) + Batches(ids[n..])
  }

  /** The devices that announce themselves, in order. */
  function Announced(events: seq<Presence>): seq<nat> {
    if events == [] then []
    else
      var rest := Announced(events[..|events| - 1]);
      if events[|events| - 1].Alive? then rest + [events[|events| - 1].id] else rest
  }

  /** The devices that announce themselves and were not on the bus at start, each once. */
  function Late(first: seq<nat>, events: seq<Presence>): seq<nat> {
    OccurrencesGrow(first, Announced(events));
    FirstOccurrences(first + Announced(events))[|FirstOccurrences(first)|..]
  }

  lemma {:induction false} OccurrencesGrow<T(!new)>(a: seq<T>, b: seq<T>)
    ensures FirstOccurrences(a) <= FirstOccurrences(a + b)
  {
    if b == [] {
      assert a + b == a;
    } else {
      var n := |b| - 1;
      OccurrencesGrow(a, b[..n]);
      assert a + b == (a + b[..n]) + [b[n]];
      OneMoreOccurrence(a + b[..n], b[n]);
    }
  }

  /** Identify the devices on the bus at start, in batches, then each that announces itself, once. */
  method Walk(first: seq<nat>, events: seq<Presence>) returns (calls: seq<Call>)
    ensures |FirstOccurrences(first)| <= |FirstOccurrences(first + Announced(events))|
    ensures calls == Batches(FirstOccurrences(first)) + [Walked] + Identified(Late(first, events), true)
  {
    var start, known := WalkStart(first);
    var batches := WalkBatches(start);
    var late := WalkLate(first, events, known);
    calls := batches + [Walked] + late;
    OccurrencesGrow(first, Announced(events));
  }

  /** The devices on the bus at start, each once, and the set of them. */
  method WalkStart(first: seq<nat>) returns (start: seq<nat>, known: set<nat>)
    ensures start == FirstOccurrences(first) && forall id :: id in known <==> id in start
  {
    start, known := [], {};
    for n := 0 to |first|
      invariant start == FirstOccurrences(first[..n]) && forall id :: id in known <==> id in start
    {
      assert first[..n + 1] == first[..n] + [first[n]];
      OneMoreOccurrence(first[..n], first[n]);
      if first[n] !in known {
        known := known + {first[n]};
        start := start + [first[n]];
      }
    }
    assert first[..|first|] == first;
  }

  /** Identify each device that announces itself and is not known yet. */
  method WalkLate(ghost first: seq<nat>, events: seq<Presence>, start: set<nat>) returns (calls: seq<Call>)
    requires forall id :: id in start <==> id in FirstOccurrences(first)
    ensures calls == Identified(Late(first, events), true)
  {
    var known := start;
    calls := [];
    LateNone(first);
    for n := 0 to |events|
      invariant calls == Identified(Late(first, events[..n]), true)
      invariant forall id :: id in known <==> id in FirstOccurrences(first + Announced(events[..n]))
    {
      var e := events[n];
      LateNext(first, events, n);
      if e.Alive? && e.id !in known {
        known := known + {e.id};
        calls := calls + [Identify(e.id, true)];
      }
    }
    assert events[..|events|] == events;
  }

  lemma LateNone(first: seq<nat>)
    ensures Late(first, []) == [] && first + Announced([]) == first
  {
    assert first + Announced([]) == first;
  }

  lemma LateNext(first: seq<nat>, events: seq<Presence>, n: nat)
    requires n < |events|
    ensures var all, more := FirstOccurrences(first + Announced(events[..n])), FirstOccurrences(first + Announced(events[..n + 1]));
      var late := Late(first, events[..n]);
      if events[n].Alive? && events[n].id !in all then
        more == all + [events[n].id] && Late(first, events[..n + 1]) == late + [events[n].id]
      else more == all && Late(first, events[..n + 1]) == late
  {
    var e := events[n];
    assert events[..n + 1][..n] == events[..n];
    OccurrencesGrow(first, Announced(events[..n]));
    if e.Alive? {
      var heard := Announced(events[..n]);
      assert first + (heard + [e.id]) == (first + heard) + [e.id];
      OneMoreOccurrence(first + heard, e.id);
    }
  }

  method WalkBatches(ids: seq<nat>) returns (calls: seq<Call>)
    ensures calls == Batches(ids)
  {
    calls := [];
    var n := 0;
    while n < |ids|
      invariant 0 <= n <= |ids| && calls + Batches(ids[n..]) == Batches(ids)
    {
      var end := n + Least(AT_ONCE, |ids| - n);
      BatchesNext(ids, n, calls);
      calls := calls + ([Batch(ids[n..end])] + Identified(ids[n..end], false));
      n := end;
    }
  }

  lemma BatchesNext(ids: seq<nat>, n: nat, calls: seq<Call>)
    requires n < |ids|
    ensures var end := n + Least(AT_ONCE, |ids| - n);
      calls + ([Batch(ids[n..end])] + Identified(ids[n..end], false)) + Batches(ids[end..]) == calls + Batches(ids[n..])
  {
    var left, end := ids[n..], n + Least(AT_ONCE, |ids| - n);
    assert left[..end - n] == ids[n..end] && left[end - n..] == ids[end..];
    Regrouped(calls, [Batch(ids[n..end])] + Identified(ids[n..end], false), Batches(ids[end..]));
  }

  lemma Regrouped(a: seq<Call>, b: seq<Call>, c: seq<Call>)
    ensures a + b + c == a + (b + c)
  {
    assert a + b + c == a + (b + c);
  }

  /** The devices identified, in order. */
  function Ids(calls: seq<Call>): seq<nat> {
    if calls == [] then []
    else
      var rest := Ids(calls[..|calls| - 1]);
      if calls[|calls| - 1].Identify? then rest + [calls[|calls| - 1].id] else rest
  }

  lemma {:induction false} IdsAppend(a: seq<Call>, b: seq<Call>)
    ensures Ids(a + b) == Ids(a) + Ids(b)
  {
    if b == [] {
      assert a + b == a;
    } else {
      assert (a + b)[..|a + b| - 1] == a + b[..|b| - 1];
      IdsAppend(a, b[..|b| - 1]);
    }
  }

  lemma {:induction false} IdsOfIdentified(ids: seq<nat>, late: bool)
    ensures Ids(Identified(ids, late)) == ids
  {
    if ids != [] {
      var n := |ids| - 1;
      IdsOfIdentified(ids[..n], late);
      assert Identified(ids, late)[..n] == Identified(ids[..n], late);
    }
  }

  lemma {:induction false} IdsOfBatches(ids: seq<nat>)
    ensures Ids(Batches(ids)) == ids
  {
    if ids != [] {
      var n := Least(AT_ONCE, |ids|);
      IdsOfBatches(ids[n..]);
      IdsAppend([Batch(ids[..n])], Identified(ids[..n], false));
      IdsAppend([Batch(ids[..n])] + Identified(ids[..n], false), Batches(ids[n..]));
      IdsOfIdentified(ids[..n], false);
      assert [Batch(ids[..n])][..0] == [];
    }
  }

  /** Every device is identified exactly once: those on the bus at start first, in their order, then the
      others in the order they first announce themselves. */
  lemma WalkIdentifiesOnce(first: seq<nat>, events: seq<Presence>)
    ensures |FirstOccurrences(first)| <= |FirstOccurrences(first + Announced(events))|
    ensures var calls := Batches(FirstOccurrences(first)) + [Walked] + Identified(Late(first, events), true);
      Ids(calls) == FirstOccurrences(first + Announced(events)) && Distinct(Ids(calls)) &&
      forall id :: id in Ids(calls) <==> id in first || Alive(id) in events
  {
    var start := FirstOccurrences(first);
    OccurrencesGrow(first, Announced(events));
    IdsAppend(Batches(start), [Walked]);
    IdsAppend(Batches(start) + [Walked], Identified(Late(first, events), true));
    IdsOfBatches(start);
    IdsOfIdentified(Late(first, events), true);
    assert [Walked][..0] == [];
    AnnouncedAre(events);
  }

  lemma {:induction false} AnnouncedAre(events: seq<Presence>)
    ensures forall id :: id in Announced(events) <==> Alive(id) in events
  {
    if events != [] {
      AnnouncedAre(events[..|events| - 1]);
      assert events == events[..|events| - 1] + [events[|events| - 1]];
    }
  }

  /** A device on the bus at start is fetched, in a batch of at most five, before it is made ready, and with no
      other batch in between. */
  lemma {:induction false} FetchedFirst(ids: seq<nat>, i: nat)
    requires i < |Batches(ids)| && Batches(ids)[i].Identify?
    ensures exists j :: 0 <= j < i && BatchedAt(Batches(ids), j, i)
  {
    var n := Least(AT_ONCE, |ids|);
    var head, rest := [Batch(ids[..n])] + Identified(ids[..n], false), Batches(ids[n..]);
    assert Batches(ids) == head + rest;
    if i <= n {
      assert BatchedAt(Batches(ids), 0, i);
    } else {
      assert rest[i - |head|] == Batches(ids)[i];
      FetchedFirst(ids[n..], i - |head|);
      var j :| 0 <= j < i - |head| && BatchedAt(rest, j, i - |head|);
      BatchedAfter(head, rest, j, i - |head|);
    }
  }

  lemma BatchedAfter(head: seq<Call>, rest: seq<Call>, j: nat, i: nat)
    requires j < i < |rest| && BatchedAt(rest, j, i)
    ensures BatchedAt(head + rest, |head| + j, |head| + i)
  {
  }

  /** Call `i` makes ready a device of the batch fetched by call `j`, the last one before. */
  predicate BatchedAt(calls: seq<Call>, j: nat, i: nat)
    requires j < i < |calls|
  {
    calls[i].Identify? && calls[j].Batch? && calls[i].id in calls[j].ids && |calls[j].ids| <= AT_ONCE &&
    forall k :: j < k <= i ==> calls[k].Identify?
  }

  /** A device that was on the bus at start is made ready before the walk is said to be over, and is not late; every
      other is late, and comes after. */
  lemma LateComeAfter(first: seq<nat>, events: seq<Presence>, i: nat)
    ensures var batches := Batches(FirstOccurrences(first));
      var calls := batches + [Walked] + Identified(Late(first, events), true);
      calls[|batches|] == Walked &&
      (i < |calls| && calls[i].Identify? ==> (calls[i].late <==> i > |batches|) && (calls[i].late <==> calls[i].id !in first))
  {
    var start := FirstOccurrences(first);
    var batches := Batches(start);
    if i < |batches| && batches[i].Identify? {
      AtStart(start, i);
    }
    var all := FirstOccurrences(first + Announced(events));
    OccurrencesGrow(first, Announced(events));
    var late := Late(first, events);
    forall k | 0 <= k < |late|
      ensures late[k] !in first
    {
      assert late[k] == all[|start| + k];
      assert late[k] !in start;
    }
  }

  lemma {:induction false} AtStart(ids: seq<nat>, i: nat)
    requires i < |Batches(ids)| && Batches(ids)[i].Identify?
    ensures !Batches(ids)[i].late && Batches(ids)[i].id in ids
  {
    var n := Least(AT_ONCE, |ids|);
    var head, rest := [Batch(ids[..n])] + Identified(ids[..n], false), Batches(ids[n..]);
    assert Batches(ids) == head + rest;
    if i <= n {
      assert Batches(ids)[i] == Identify(ids[i - 1], false);
    } else {
      assert rest[i - |head|] == Batches(ids)[i];
      AtStart(ids[n..], i - |head|);
    }
  }

  /** How many batches there are. */
  function BatchCount(calls: seq<Call>): nat {
    if calls == [] then 0 else BatchCount(calls[..|calls| - 1]) + if calls[|calls| - 1].Batch? then 1 else 0
  }

  lemma {:induction false} BatchCountAppend(a: seq<Call>, b: seq<Call>)
    ensures BatchCount(a + b) == BatchCount(a) + BatchCount(b)
  {
    if b == [] {
      assert a + b == a;
    } else {
      assert (a + b)[..|a + b| - 1] == a + b[..|b| - 1];
      BatchCountAppend(a, b[..|b| - 1]);
    }
  }

  lemma {:induction false} NoBatches(ids: seq<nat>, late: bool)
    ensures BatchCount(Identified(ids, late)) == 0
  {
    if ids != [] {
      var n := |ids| - 1;
      NoBatches(ids[..n], late);
      assert Identified(ids, late)[..n] == Identified(ids[..n], late);
    }
  }

  /** There are no more batches than it takes with five devices in each. */
  lemma {:induction false} BatchesAreFull(ids: seq<nat>)
    ensures BatchCount(Batches(ids)) == (|ids| + 4) / 5
  {
    if ids != [] {
      var n := Least(AT_ONCE, |ids|);
      BatchesAreFull(ids[n..]);
      BatchCountAppend([Batch(ids[..n])], Identified(ids[..n], false));
      BatchCountAppend([Batch(ids[..n])] + Identified(ids[..n], false), Batches(ids[n..]));
      NoBatches(ids[..n], false);
      assert [Batch(ids[..n])][..0] == [];
    }
  }
}
