/** Reading without groups: the outputs a device lists, and every index of a tab. */
module Probing {
  import opened Prelude
  import opened Tab
  import opened WaiterLog
  import opened Discovery
  import opened FakeDevice
  import opened Enumeration
  import opened Groups
  import opened Menus

  // ----- eventable outputs

  const OUTPUTS: byte := 0x3F
  const FIRST_OUTPUT: byte := 0x40
  const MAX_OUTPUTS: nat := 32

  /** Outputs up to the first that is missing or whose commit register does not exist. */
  function Usable(outputs: seq<byte>, n: nat): seq<FieldId> {
    if n == 0 || outputs == [] || outputs[0] == 0xFF then []
    else [FieldIdOf(Monitoring, outputs[0])] + Usable(outputs[1..], n - 1)
  }

  function OutputsSpec(s: Schema): seq<FieldId> {
    var listed := if s.uncounted then MAX_OUTPUTS else |s.outputs| % 256;
    Usable(s.outputs, if listed < MAX_OUTPUTS then listed else MAX_OUTPUTS)
  }

  lemma OutputTold(s: Schema, k: byte)
    requires k < MAX_OUTPUTS
    ensures SelectorValue(DeviceReply(s, OP_SELECTOR, FIRST_OUTPUT + k)) ==
      Some(if k < |s.outputs| then Some(s.outputs[k]) else None)
  {
  }

  lemma OutputCountTold(s: Schema)
    ensures SelectorValue(DeviceReply(s, OP_SELECTOR, OUTPUTS)) ==
      if s.uncounted then None else Some(if s.outputs != [] then Some(|s.outputs| % 256) else None)
  {
  }

  lemma {:induction false} UsableNext(outputs: seq<byte>, k: nat)
    requires k < |outputs| && outputs[k] != 0xFF && |Usable(outputs, k)| == k
    ensures Usable(outputs, k + 1) == Usable(outputs, k) + [FieldIdOf(Monitoring, outputs[k])]
  {
    if k > 0 {
      UsableNext(outputs[1..], k - 1);
    }
  }

  lemma {:induction false} UsableEnds(outputs: seq<byte>, k: nat, n: nat)
    requires k <= n && |Usable(outputs, k)| == k && (k >= |outputs| || outputs[k] == 0xFF)
    ensures Usable(outputs, n) == Usable(outputs, k)
  {
    if k > 0 {
      UsableEnds(outputs[1..], k - 1, n - 1);
    }
  }

  /** The outputs a device lists, output k at position k. */
  method EventableOutputs(disc: Disc, addr: Addr, ghost s: Schema) returns (out: seq<FieldId>)
    requires disc.Valid() && Meets(disc, s) && s.addr == addr
    modifies disc, disc.waiter
    ensures disc.Valid() && Onward(old(disc.Now()), disc.Now())
    ensures AllAnswered(disc.gaveUp, s) ==> out == OutputsSpec(s)
  {
    var listed := Selector(disc, addr, OUTPUTS, s);
    OutputCountTold(s);
    ghost var a := disc.Now();
    if listed == Some(None) {
      return [];
    }
    var count := if listed.Some? && listed.value.value < MAX_OUTPUTS then listed.value.value else MAX_OUTPUTS;
    out := ReadOutputs(disc, addr, count, s);
    OnwardChain(old(disc.Now()), a, disc.Now());
    FewerGivenUp(a.gaveUp, disc.gaveUp, s);
  }

  method ReadOutputs(disc: Disc, addr: Addr, count: nat, ghost s: Schema) returns (out: seq<FieldId>)
    requires disc.Valid() && Meets(disc, s) && s.addr == addr && count <= MAX_OUTPUTS
    modifies disc, disc.waiter
    ensures disc.Valid() && Onward(old(disc.Now()), disc.Now())
    ensures AllAnswered(disc.gaveUp, s) ==> out == Usable(s.outputs, count)
  {
    out := [];
    for k := 0 to count
      invariant disc.Valid() && Onward(old(disc.Now()), disc.Now())
      invariant AllAnswered(disc.gaveUp, s) ==> out == Usable(s.outputs, k) && |out| == k
    {
      ghost var a := disc.Now();
      var index := Selector(disc, addr, FIRST_OUTPUT + k, s);
      OnwardChain(old(disc.Now()), a, disc.Now());
      FewerGivenUp(a.gaveUp, disc.gaveUp, s);
      OutputTold(s, k);
      if index.None? || index.value.None? || index.value.value >= 0xFF {
        if AllAnswered(disc.gaveUp, s) {
          UsableEnds(s.outputs, k, count);
        }
        return;
      }
      if AllAnswered(disc.gaveUp, s) {
        UsableNext(s.outputs, k);
      }
      out := out + [FieldIdOf(Monitoring, index.value.value)];
    }
  }

  /** A device with at most 32 outputs, none at index 255, has them all listed, whether or not it counts them. */
  lemma {:induction false} AllOutputsUsable(outputs: seq<byte>, n: nat)
    requires |outputs| <= n && 0xFF !in outputs
    ensures |Usable(outputs, n)| == |outputs|
    ensures forall k :: 0 <= k < |outputs| ==> Usable(outputs, n)[k] == FieldIdOf(Monitoring, outputs[k])
  {
    if outputs != [] {
      AllOutputsUsable(outputs[1..], n - 1);
    }
  }

  lemma OutputsAreListed(s: Schema)
    requires |s.outputs| <= 32 && 0xFF !in s.outputs
    ensures OutputsSpec(s) == Usable(s.outputs, |s.outputs|) && |OutputsSpec(s)| == |s.outputs|
    ensures forall k :: 0 <= k < |s.outputs| ==> OutputsSpec(s)[k] == FieldIdOf(Monitoring, s.outputs[k])
  {
    AllOutputsUsable(s.outputs, MAX_OUTPUTS);
    AllOutputsUsable(s.outputs, |s.outputs|);
  }

  // ----- every index of a tab

  const PROBE_CHUNK: nat := 64

  function VizTargets(addr: Addr, menu: Menu, from: nat, end: nat): (targets: seq<(Addr, Request)>)
    requires from <= end <= 256
    ensures |targets| == end - from && Asks(targets)
    ensures forall i :: 0 <= i < end - from ==> targets[i] == (addr, FieldProperty(menu, OP_VIZ, from + i))
  {
    var targets := seq(end - from, i requires 0 <= i < end - from => (addr, FieldProperty(menu, OP_VIZ, from + i)));
    assert forall i, j :: 0 <= i < j < |targets| ==> targets[i].1.index != targets[j].1.index;
    targets
  }

  /** The indices of a tab below `n` that have a field. */
  function Existing(s: Schema, menu: Menu, n: nat): seq<byte>
    requires n <= 256
  {
    if n == 0 then []
    else Existing(s, menu, n - 1) + if FieldIdOf(menu, n - 1) in s.meta then [(n - 1) as byte] else []
  }

  /** Which of some replies came, by index from `from` on. */
  method Answering(rs: seq<Option<Bytes>>, from: nat, ghost s: Schema, ghost menu: Menu) returns (existing: seq<byte>)
    requires from + |rs| <= 256
    ensures (forall i :: 0 <= i < |rs| ==> (rs[i].Some? <==> FieldIdOf(menu, from + i) in s.meta)) ==>
      Existing(s, menu, from) + existing == Existing(s, menu, from + |rs|)
  {
    existing := [];
    for i := 0 to |rs|
      invariant (forall j :: 0 <= j < i ==> (rs[j].Some? <==> FieldIdOf(menu, from + j) in s.meta)) ==>
        Existing(s, menu, from) + existing == Existing(s, menu, from + i)
    {
      if rs[i].Some? {
        existing := existing + [from + i];
      }
    }
  }

  /** One chunk of the sweep: each index asked once, all together. */
  method ProbeChunk(disc: Disc, addr: Addr, menu: Menu, from: nat, end: nat,
                    ghost s: Schema) returns (existing: seq<byte>)
    requires disc.Valid() && Meets(disc, s) && s.addr == addr && from <= end <= 256
    modifies disc, disc.waiter
    ensures disc.Valid() && Onward(old(disc.Now()), disc.Now())
    ensures AllAnswered(disc.gaveUp, s) ==> Existing(s, menu, from) + existing == Existing(s, menu, end)
  {
    ghost var log := disc.waiter.log;
    var targets := VizTargets(addr, menu, from, end);
    var rs := disc.AskOnce(targets);
    existing := Answering(rs, from, s, menu);
    if AllAnswered(disc.gaveUp, s) {
      forall i | 0 <= i < |rs|
        ensures rs[i].Some? <==> FieldIdOf(menu, from + i) in s.meta
      {
        ProbeTold(disc, s, menu, from, end, rs, |log|, i);
      }
    }
  }

  lemma ProbeTold(disc: Disc, s: Schema, menu: Menu, from: nat, end: nat, rs: seq<Option<Bytes>>, since: nat, i: nat)
    requires Meets(disc, s) && AllAnswered(disc.gaveUp, s) && from <= end <= 256 && i < end - from
    requires Replied(disc.waiter, since, VizTargets(s.addr, menu, from, end), rs, 1)
    requires Lost(VizTargets(s.addr, menu, from, end), rs) <= disc.gaveUp
    ensures rs[i].Some? <==> FieldIdOf(menu, from + i) in s.meta
  {
  }

  /** Which indices of a tab have a field at all: one request each, in chunks that share one wait. */
  method ProbeExistence(disc: Disc, addr: Addr, menu: Menu, max: nat, ghost s: Schema) returns (existing: seq<byte>)
    requires disc.Valid() && Meets(disc, s) && s.addr == addr && max <= 256
    modifies disc, disc.waiter
    ensures disc.Valid() && Onward(old(disc.Now()), disc.Now())
    ensures AllAnswered(disc.gaveUp, s) ==> existing == Existing(s, menu, max)
  {
    existing := [];
    var wire := 0;
    while wire < max
      invariant 0 <= wire <= max && disc.Valid() && Onward(old(disc.Now()), disc.Now())
      invariant AllAnswered(disc.gaveUp, s) ==> existing == Existing(s, menu, wire)
    {
      ghost var a := disc.Now();
      var end := if wire + PROBE_CHUNK < max then wire + PROBE_CHUNK else max;
      var more := ProbeChunk(disc, addr, menu, wire, end, s);
      OnwardChain(old(disc.Now()), a, disc.Now());
      FewerGivenUp(a.gaveUp, disc.gaveUp, s);
      existing := existing + more;
      wire := end;
    }
  }

  /** The fields at some indices of a tab. */
  function FieldsAt(s: Schema, catalog: Catalog, menu: Menu, indices: seq<byte>): seq<FieldInfo> {
    if indices == [] then []
    else
      var n := |indices| - 1;
      FieldsAt(s, catalog, menu, indices[..n]) +
      match FieldSpec(s, catalog, menu, indices[n], false)
      case Some(f) => [f]
      case None => []
  }

  /** Every field of a tab that a sweep finds. */
  method ProbeChannel(disc: Disc, addr: Addr, menu: Menu, ghost s: Schema) returns (out: seq<FieldInfo>)
    requires disc.Valid() && Meets(disc, s) && s.addr == addr
    modifies disc, disc.waiter
    ensures disc.Valid() && Onward(old(disc.Now()), disc.Now())
    ensures AllAnswered(disc.gaveUp, s) ==> out == FieldsAt(s, disc.catalog, menu, Existing(s, menu, 256))
  {
    var wires := ProbeExistence(disc, addr, menu, 256, s);
    ghost var a := disc.Now();
    out := ReadFields(disc, addr, menu, wires, s);
    OnwardChain(old(disc.Now()), a, disc.Now());
    FewerGivenUp(a.gaveUp, disc.gaveUp, s);
  }

  method ReadFields(disc: Disc, addr: Addr, menu: Menu, wires: seq<byte>, ghost s: Schema) returns (out: seq<FieldInfo>)
    requires disc.Valid() && Meets(disc, s) && s.addr == addr
    modifies disc, disc.waiter
    ensures disc.Valid() && Onward(old(disc.Now()), disc.Now())
    ensures AllAnswered(disc.gaveUp, s) ==> out == FieldsAt(s, disc.catalog, menu, wires)
  {
    out := [];
    for n := 0 to |wires|
      invariant disc.Valid() && Onward(old(disc.Now()), disc.Now())
      invariant AllAnswered(disc.gaveUp, s) ==> out == FieldsAt(s, disc.catalog, menu, wires[..n])
    {
      ghost var a := disc.Now();
      var f := EnumerateField(disc, addr, menu, wires[n], false, s);
      OnwardChain(old(disc.Now()), a, disc.Now());
      FewerGivenUp(a.gaveUp, disc.gaveUp, s);
      out := if f.Some? then out + [f.value] else out;
      FieldsAtNext(s, disc.catalog, menu, wires, n);
    }
    assert wires[..|wires|] == wires;
  }

  lemma FieldsAtNext(s: Schema, catalog: Catalog, menu: Menu, indices: seq<byte>, n: nat)
    requires n < |indices|
    ensures var f := FieldSpec(s, catalog, menu, indices[n], false);
      FieldsAt(s, catalog, menu, indices[..n + 1]) ==
        FieldsAt(s, catalog, menu, indices[..n]) + if f.Some? then [f.value] else []
  {
    assert indices[..n + 1][..n] == indices[..n];
  }

  /** The sweep's indices are those with a field, in order. */
  lemma {:induction false} ExistingAre(s: Schema, menu: Menu, n: nat)
    requires n <= 256
    ensures forall index: byte :: index in Existing(s, menu, n) <==> index < n && FieldIdOf(menu, index) in s.meta
    ensures forall i, j :: 0 <= i < j < |Existing(s, menu, n)| ==> Existing(s, menu, n)[i] < Existing(s, menu, n)[j]
  {
    if n > 0 {
      ExistingAre(s, menu, n - 1);
      var before := Existing(s, menu, n - 1);
      assert forall i :: 0 <= i < |before| ==> before[i] in before;
    }
  }

  /** A sweep finds one field at each of these indices. */
  lemma {:induction false} SweepFinds(s: Schema, catalog: Catalog, menu: Menu, indices: seq<byte>)
    requires forall i :: 0 <= i < |indices| ==> FieldIdOf(menu, indices[i]) in s.meta
    ensures |FieldsAt(s, catalog, menu, indices)| == |indices|
    ensures forall i :: 0 <= i < |indices| ==>
      Some(FieldsAt(s, catalog, menu, indices)[i]) == FieldSpec(s, catalog, menu, indices[i], false)
  {
    if indices != [] {
      SweepFinds(s, catalog, menu, indices[..|indices| - 1]);
    }
  }
}
