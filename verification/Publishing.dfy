/** From discovered devices and a mapping to what is published: merging menus, seeding, resolving. */
module Publishing {
  import opened Prelude
  import opened SignalK
  import opened Text
  import opened Mappings
  import opened Units
  import Tab

  datatype FieldRec = FieldRec(id: Word, name: string, unit: string, options: Labels, writable: bool,
                               menu: Tab.Menu, group: string)

  /** A device as far as mapping needs it. */
  datatype DeviceRec = DeviceRec(id: nat, serial: string, article: string, name: string, firmware: string,
                                 instance: string, fields: seq<FieldRec>, menus: seq<Tab.Menu>)

  // ----- merging menus

  datatype ScannedField = ScannedField(id: Word, name: string, unit: string, options: Labels, writeable: bool)

  datatype ScannedGroup = ScannedGroup(name: string, fields: seq<ScannedField>)

  predicate HasId(fields: seq<FieldRec>, id: Word) {
    exists i :: 0 <= i < |fields| && fields[i].id == id
  }

  /** A field is added unless its id is there already. */
  function Added(fields: seq<FieldRec>, f: FieldRec): seq<FieldRec> {
    if HasId(fields, f.id) then fields else fields + [f]
  }

  function AllAdded(fields: seq<FieldRec>, more: seq<FieldRec>): seq<FieldRec> {
    if more == [] then fields else Added(AllAdded(fields, more[..|more| - 1]), more[|more| - 1])
  }

  function RecOf(menu: Tab.Menu, group: string, f: ScannedField): FieldRec {
    FieldRec(f.id, f.name, f.unit, f.options, f.writeable, menu, group)
  }

  /** The fields a group reports, in order. */
  function GroupFields(menu: Tab.Menu, g: ScannedGroup): (r: seq<FieldRec>)
    ensures |r| == |g.fields| && forall i :: 0 <= i < |r| ==> r[i] == RecOf(menu, g.name, g.fields[i])
  {
    seq(|g.fields|, i requires 0 <= i < |g.fields| => RecOf(menu, g.name, g.fields[i]))
  }

  /** The fields a menu reports, in order. */
  function MenuFields(menu: Tab.Menu, groups: seq<ScannedGroup>): seq<FieldRec> {
    if groups == [] then []
    else MenuFields(menu, groups[..|groups| - 1]) + GroupFields(menu, groups[|groups| - 1])
  }

  lemma {:induction false} AllAddedAppend(fields: seq<FieldRec>, a: seq<FieldRec>, b: seq<FieldRec>)
    ensures AllAdded(fields, a + b) == AllAdded(AllAdded(fields, a), b)
  {
    if b == [] {
      assert a + b == a;
    } else {
      assert (a + b)[..|a + b| - 1] == a + b[..|b| - 1];
      AllAddedAppend(fields, a, b[..|b| - 1]);
    }
  }

  class DeviceRecord {
    const id: nat
    const serial: string
    const article: string
    const name: string
    const firmware: string
    const instance: string
    var fields: seq<FieldRec>
    var menus: seq<Tab.Menu>

    constructor (id: nat, serial: string, article: string, name: string, firmware: string, instance: string)
      ensures this.id == id && this.serial == serial && fields == [] && menus == []
    {
      this.id, this.serial, this.article := id, serial, article;
      this.name, this.firmware, this.instance := name, firmware, instance;
      fields, menus := [], [];
    }

    function Rec(): DeviceRec
      reads this
    {
      DeviceRec(id, serial, article, name, firmware, instance, fields, menus)
    }

    /** Add the fields of one discovered menu; the first menu to report an id owns it. */
    method MergeGroups(menu: Tab.Menu, groups: seq<ScannedGroup>)
      modifies this
      ensures Rec() == old(Rec()).(fields := AllAdded(old(fields), MenuFields(menu, groups)),
                                   menus := if menu in old(menus) then old(menus) else old(menus) + [menu])
    {
      if menu !in menus {
        menus := menus + [menu];
      }
      for g := 0 to |groups|
        invariant fields == AllAdded(old(fields), MenuFields(menu, groups[..g]))
        invariant menus == if menu in old(menus) then old(menus) else old(menus) + [menu]
      {
        assert groups[..g + 1][..g] == groups[..g];
        var recs := GroupFields(menu, groups[g]);
        AllAddedAppend(old(fields), MenuFields(menu, groups[..g]), recs);
        AddFields(recs);
      }
      assert groups[..|groups|] == groups;
    }

    method AddFields(recs: seq<FieldRec>)
      modifies this`fields
      ensures fields == AllAdded(old(fields), recs)
    {
      for i := 0 to |recs|
        invariant fields == AllAdded(old(fields), recs[..i])
      {
        assert recs[..i + 1][..i] == recs[..i];
        if !HasId(fields, recs[i].id) {
          fields := fields + [recs[i]];
        }
      }
      assert recs[..|recs|] == recs;
    }
  }

  predicate DistinctIds(fields: seq<FieldRec>) {
    forall i, j :: 0 <= i < j < |fields| ==> fields[i].id != fields[j].id
  }

  /** The first of some reports with its id. */
  predicate FirstReport(reports: seq<FieldRec>, f: FieldRec) {
    exists p :: 0 <= p < |reports| && reports[p] == f && forall q :: 0 <= q < p ==> reports[q].id != f.id
  }

  /** From whatever menus are merged, in whatever order: every reported id is there once, as first reported. */
  lemma {:induction false} MergedAreFirst(reports: seq<FieldRec>)
    ensures DistinctIds(AllAdded([], reports))
    ensures forall f :: f in AllAdded([], reports) <==> FirstReport(reports, f)
    ensures forall p :: 0 <= p < |reports| ==> HasId(AllAdded([], reports), reports[p].id)
  {
    if reports != [] {
      var n := |reports| - 1;
      var init, last := reports[..n], reports[n];
      MergedAreFirst(init);
      var before := AllAdded([], init);
      FirstReportNext(init, last);
      assert reports == init + [last];
      if HasId(before, last.id) {
        var i :| 0 <= i < |before| && before[i].id == last.id;
        assert before[i] in before;
      }
      forall p | 0 <= p < |reports|
        ensures HasId(AllAdded([], reports), reports[p].id)
      {
        HasIdKept(before, last, reports[p].id);
        assert p < n ==> init[p] == reports[p];
      }
      forall f
        ensures f in AllAdded([], reports) <==> FirstReport(reports, f)
      {
        IdReported(init, before, last.id);
      }
    }
  }

  lemma HasIdKept(fields: seq<FieldRec>, f: FieldRec, id: Word)
    ensures HasId(Added(fields, f), id) <==> HasId(fields, id) || id == f.id
  {
    var all := Added(fields, f);
    if HasId(fields, id) {
      var i :| 0 <= i < |fields| && fields[i].id == id;
      assert all[i].id == id;
    }
    if !HasId(fields, f.id) {
      assert all[|fields|].id == f.id;
    }
  }

  lemma IdReported(reports: seq<FieldRec>, merged: seq<FieldRec>, id: Word)
    requires forall p :: 0 <= p < |reports| ==> HasId(merged, reports[p].id)
    requires forall f :: f in merged ==> FirstReport(reports, f)
    ensures HasId(merged, id) <==> exists p :: 0 <= p < |reports| && reports[p].id == id
  {
    if HasId(merged, id) {
      var i :| 0 <= i < |merged| && merged[i].id == id;
      assert merged[i] in merged;
    }
  }

  lemma FirstReportNext(init: seq<FieldRec>, last: FieldRec)
    ensures forall f :: FirstReport(init + [last], f) <==>
      FirstReport(init, f) || (f == last && forall q :: 0 <= q < |init| ==> init[q].id != last.id)
  {
    var all := init + [last];
    forall f
      ensures FirstReport(all, f) <==>
        FirstReport(init, f) || (f == last && forall q :: 0 <= q < |init| ==> init[q].id != last.id)
    {
      if FirstReport(init, f) {
        var p :| 0 <= p < |init| && init[p] == f && forall q :: 0 <= q < p ==> init[q].id != f.id;
        assert all[p] == f;
      }
      if f == last && forall q :: 0 <= q < |init| ==> init[q].id != last.id {
        assert all[|init|] == f;
      }
      if FirstReport(all, f) {
        var p :| 0 <= p < |all| && all[p] == f && forall q :: 0 <= q < p ==> all[q].id != f.id;
        if p < |init| {
          assert init[p] == f;
          assert forall q :: 0 <= q < p ==> init[q] == all[q];
        } else {
          assert forall q :: 0 <= q < |init| ==> init[q] == all[q];
        }
      }
    }
  }

  /** A record is of some group's field: its id, name, unit, options and whether it can be written, with the menu
      and the group it was reported in. */
  predicate IsRecordOf(r: FieldRec, menu: Tab.Menu, g: ScannedGroup, f: ScannedField) {
    r.id == f.id && r.name == f.name && r.unit == f.unit && r.options == f.options && r.writable == f.writeable &&
    r.menu == menu && r.group == g.name
  }

  /** The fields a menu reports are those of its groups. */
  lemma {:induction false} MenuFieldsAre(menu: Tab.Menu, groups: seq<ScannedGroup>, r: FieldRec)
    ensures r in MenuFields(menu, groups) <==>
      exists i, j :: 0 <= i < |groups| && 0 <= j < |groups[i].fields| && IsRecordOf(r, menu, groups[i], groups[i].fields[j])
  {
    if groups != [] {
      var n := |groups| - 1;
      var last := groups[n];
      MenuFieldsAre(menu, groups[..n], r);
      if r in GroupFields(menu, last) {
        var j :| 0 <= j < |last.fields| && r == RecOf(menu, last.name, last.fields[j]);
        assert IsRecordOf(r, menu, groups[n], groups[n].fields[j]);
      }
      if i, j :| 0 <= i < |groups| && 0 <= j < |groups[i].fields| && IsRecordOf(r, menu, groups[i], groups[i].fields[j]) {
        if i == n {
          assert GroupFields(menu, last)[j] == r;
        } else {
          assert groups[..n][i] == groups[i];
        }
      }
    }
  }

  // ----- seeding

  datatype Suggestion = Suggestion(path: string, invert: bool)

  /** What the model database and the name heuristics suggest for a field, if anything. */
  type Suggest = (DeviceRec, FieldRec) -> Option<Suggestion>

  predicate SortedById(fields: seq<FieldRec>) {
    forall i, j :: 0 <= i < j < |fields| ==> fields[i].id <= fields[j].id
  }

  /** Put a field after those with the same or a lower id. */
  function Placed(fields: seq<FieldRec>, f: FieldRec): seq<FieldRec> {
    if fields == [] then [f]
    else if f.id < fields[|fields| - 1].id then Placed(fields[..|fields| - 1], f) + [fields[|fields| - 1]]
    else fields + [f]
  }

  lemma {:induction false} PlacedHas(fields: seq<FieldRec>, f: FieldRec)
    ensures forall x :: x in Placed(fields, f) <==> x in fields || x == f
  {
    if fields != [] && f.id < fields[|fields| - 1].id {
      PlacedHas(fields[..|fields| - 1], f);
      assert fields == fields[..|fields| - 1] + [fields[|fields| - 1]];
    }
  }

  lemma {:induction false} PlacedIsSorted(fields: seq<FieldRec>, f: FieldRec)
    requires SortedById(fields)
    ensures SortedById(Placed(fields, f))
  {
    if fields != [] && f.id < fields[|fields| - 1].id {
      var n := |fields| - 1;
      PlacedIsSorted(fields[..n], f);
      PlacedHas(fields[..n], f);
      var p := Placed(fields[..n], f);
      forall i | 0 <= i < |p|
        ensures p[i].id <= fields[n].id
      {
        assert p[i] in p;
      }
    }
  }

  /** The Monitoring fields, by id. */
  method Ordered(fields: seq<FieldRec>) returns (ordered: seq<FieldRec>)
    ensures SortedById(ordered)
    ensures forall f :: f in ordered <==> f in fields && f.menu == Tab.Monitoring
    ensures DistinctIds(fields) ==> DistinctIds(ordered)
  {
    ordered := [];
    for n := 0 to |fields|
      invariant SortedById(ordered)
      invariant forall f :: f in ordered <==> f in fields[..n] && f.menu == Tab.Monitoring
      invariant DistinctIds(fields) ==> DistinctIds(ordered)
    {
      assert fields[..n + 1] == fields[..n] + [fields[n]];
      if fields[n].menu == Tab.Monitoring {
        PlacedIsSorted(ordered, fields[n]);
        PlacedHas(ordered, fields[n]);
        if DistinctIds(fields) {
          NotThereYet(fields, n, ordered);
          PlacedDistinct(ordered, fields[n]);
        }
        ordered := Placed(ordered, fields[n]);
      }
    }
    assert fields[..|fields|] == fields;
  }

  lemma NotThereYet(fields: seq<FieldRec>, n: nat, ordered: seq<FieldRec>)
    requires DistinctIds(fields) && n < |fields| && forall f :: f in ordered ==> f in fields[..n]
    ensures !HasId(ordered, fields[n].id)
  {
    forall i | 0 <= i < |ordered|
      ensures ordered[i].id != fields[n].id
    {
      assert ordered[i] in ordered;
    }
  }

  lemma {:induction false} PlacedDistinct(fields: seq<FieldRec>, f: FieldRec)
    requires DistinctIds(fields) && !HasId(fields, f.id) && SortedById(fields)
    ensures DistinctIds(Placed(fields, f))
  {
    if fields != [] && f.id < fields[|fields| - 1].id {
      var n := |fields| - 1;
      var init := fields[..n];
      assert !HasId(init, f.id);
      PlacedDistinct(init, f);
      PlacedHas(init, f);
      var p := Placed(init, f);
      forall i | 0 <= i < |p|
        ensures p[i].id != fields[n].id
      {
        assert p[i] in p;
      }
    }
  }

  function SeedEntry(s: Suggestion): FieldMapping {
    FieldMapping(s.path, s.invert, [], map[], false, false)
  }

  /** A seeded entry has the path and inversion suggested, and nothing else: no table, no notification, not
      writable. */
  lemma SeedEntryIs(s: Suggestion)
    ensures var e := SeedEntry(s);
      e.path == s.path && e.invert == s.invert && e.truth == [] && e.notify == map[] && !e.put && !e.allowOff
  {
  }

  /** A field takes the path suggested for it: no Monitoring field with a lower id is suggested the same. */
  ghost predicate Seeds(d: DeviceRec, suggest: Suggest, f: FieldRec) {
    f in d.fields && f.menu == Tab.Monitoring && suggest(d, f).Some? &&
    forall g :: g in d.fields && g.menu == Tab.Monitoring && g.id < f.id && suggest(d, g).Some? ==>
      suggest(d, g).value.path != suggest(d, f).value.path
  }

  /** A device's seeded fields: exactly the lowest-id Monitoring field suggesting each path. */
  ghost predicate IsSeed(d: DeviceRec, suggest: Suggest, fields: map<string, FieldMapping>) {
    (forall f :: Seeds(d, suggest, f) ==> FieldKey(f.id) in fields && fields[FieldKey(f.id)] == SeedEntry(suggest(d, f).value)) &&
    (forall k :: k in fields ==> exists f :: Seeds(d, suggest, f) && k == FieldKey(f.id))
  }

  /** The paths taken are those suggested for the first `n` of the ordered fields. */
  ghost predicate TakenTo(d: DeviceRec, suggest: Suggest, ordered: seq<FieldRec>, n: nat, taken: map<string, Word>)
    requires n <= |ordered|
  {
    forall p :: p in taken <==> exists i :: 0 <= i < n && suggest(d, ordered[i]).Some? && suggest(d, ordered[i]).value.path == p
  }

  /** Every entry is of a field that is to be seeded, and each of those has its entry. */
  ghost predicate SetTo(d: DeviceRec, suggest: Suggest, ordered: seq<FieldRec>, n: nat,
                        fields: map<string, FieldMapping>)
    requires n <= |ordered|
  {
    forall i :: 0 <= i < n && Seeds(d, suggest, ordered[i]) ==>
      FieldKey(ordered[i].id) in fields && fields[FieldKey(ordered[i].id)] == SeedEntry(suggest(d, ordered[i]).value)
  }

  ghost predicate OnlyFrom(d: DeviceRec, suggest: Suggest, ordered: seq<FieldRec>, n: nat,
                           fields: map<string, FieldMapping>)
    requires n <= |ordered|
  {
    forall k :: k in fields ==> exists i :: 0 <= i < n && Seeds(d, suggest, ordered[i]) && k == FieldKey(ordered[i].id)
  }

  /** The fields to be seeded, in the order of their ids. */
  ghost predicate IsOrder(d: DeviceRec, ordered: seq<FieldRec>) {
    SortedById(ordered) && DistinctIds(ordered) && forall f :: f in ordered <==> f in d.fields && f.menu == Tab.Monitoring
  }

  /** A field is seeded exactly when no field before it in the order was suggested its path. */
  lemma SeedsIff(d: DeviceRec, suggest: Suggest, ordered: seq<FieldRec>, n: nat, taken: map<string, Word>)
    requires IsOrder(d, ordered) && n < |ordered| && TakenTo(d, suggest, ordered, n, taken)
    ensures Seeds(d, suggest, ordered[n]) <==>
      suggest(d, ordered[n]).Some? && suggest(d, ordered[n]).value.path !in taken
  {
  }

  /** Seed one device: of the fields suggested the same path, the one with the lowest id gets it. */
  method SeedDevice(d: DeviceRec, suggest: Suggest) returns (fields: map<string, FieldMapping>)
    requires DistinctIds(d.fields)
    ensures IsSeed(d, suggest, fields)
  {
    var ordered := Ordered(d.fields);
    fields := map[];
    var taken: map<string, Word> := map[];
    for n := 0 to |ordered|
      invariant TakenTo(d, suggest, ordered, n, taken)
      invariant SetTo(d, suggest, ordered, n, fields) && OnlyFrom(d, suggest, ordered, n, fields)
    {
      var f := ordered[n];
      SeedsIff(d, suggest, ordered, n, taken);
      var s := suggest(d, f);
      if s.Some? && s.value.path !in taken {
        TakenNext(d, suggest, ordered, n, taken);
        SetNext(d, suggest, ordered, n, fields);
        OnlyFromNext(d, suggest, ordered, n, fields);
        taken := taken[s.value.path := f.id];
        fields := fields[FieldKey(f.id) := SeedEntry(s.value)];
      } else {
        SeededStill(d, suggest, ordered, n, taken, fields);
      }
    }
    SeededAll(d, suggest, ordered, fields);
  }

  lemma KeyIsNew(ordered: seq<FieldRec>, n: nat)
    requires DistinctIds(ordered) && n < |ordered|
    ensures forall i :: 0 <= i < n ==> FieldKey(ordered[i].id) != FieldKey(ordered[n].id)
  {
    forall i | 0 <= i < n
      ensures FieldKey(ordered[i].id) != FieldKey(ordered[n].id)
    {
      assert ordered[i].id != ordered[n].id;
      if FieldKey(ordered[i].id) == FieldKey(ordered[n].id) {
        FieldKeyInjective(ordered[i].id, ordered[n].id);
      }
    }
  }

  lemma TakenNext(d: DeviceRec, suggest: Suggest, ordered: seq<FieldRec>, n: nat, taken: map<string, Word>)
    requires n < |ordered| && suggest(d, ordered[n]).Some? && TakenTo(d, suggest, ordered, n, taken)
    ensures TakenTo(d, suggest, ordered, n + 1, taken[suggest(d, ordered[n]).value.path := ordered[n].id])
  {
  }

  lemma SetNext(d: DeviceRec, suggest: Suggest, ordered: seq<FieldRec>, n: nat, fields: map<string, FieldMapping>)
    requires DistinctIds(ordered) && n < |ordered| && SetTo(d, suggest, ordered, n, fields) && suggest(d, ordered[n]).Some?
    ensures SetTo(d, suggest, ordered, n + 1, fields[FieldKey(ordered[n].id) := SeedEntry(suggest(d, ordered[n]).value)])
  {
    KeyIsNew(ordered, n);
  }

  lemma OnlyFromNext(d: DeviceRec, suggest: Suggest, ordered: seq<FieldRec>, n: nat, fields: map<string, FieldMapping>)
    requires n < |ordered| && OnlyFrom(d, suggest, ordered, n, fields) && Seeds(d, suggest, ordered[n])
    ensures OnlyFrom(d, suggest, ordered, n + 1, fields[FieldKey(ordered[n].id) := SeedEntry(suggest(d, ordered[n]).value)])
  {
  }

  lemma SeededStill(d: DeviceRec, suggest: Suggest, ordered: seq<FieldRec>, n: nat, taken: map<string, Word>,
                    fields: map<string, FieldMapping>)
    requires n < |ordered| && TakenTo(d, suggest, ordered, n, taken) && !Seeds(d, suggest, ordered[n])
    requires SetTo(d, suggest, ordered, n, fields) && OnlyFrom(d, suggest, ordered, n, fields)
    requires suggest(d, ordered[n]).Some? ==> suggest(d, ordered[n]).value.path in taken
    ensures TakenTo(d, suggest, ordered, n + 1, taken)
    ensures SetTo(d, suggest, ordered, n + 1, fields) && OnlyFrom(d, suggest, ordered, n + 1, fields)
  {
  }

  lemma SeededAll(d: DeviceRec, suggest: Suggest, ordered: seq<FieldRec>, fields: map<string, FieldMapping>)
    requires IsOrder(d, ordered)
    requires SetTo(d, suggest, ordered, |ordered|, fields) && OnlyFrom(d, suggest, ordered, |ordered|, fields)
    ensures IsSeed(d, suggest, fields)
  {
  }

  /** No two fields of a seed share a path, and every key is a field's own. */
  ghost predicate PathsDiffer(fields: map<string, FieldMapping>) {
    (forall k :: k in fields ==> ParseFieldKey(k).Some?) &&
    forall k, q :: k in fields && q in fields && fields[k].path == fields[q].path ==> k == q
  }

  lemma SeedPathsDiffer(d: DeviceRec, suggest: Suggest, fields: map<string, FieldMapping>)
    requires IsSeed(d, suggest, fields)
    ensures PathsDiffer(fields)
  {
    forall k | k in fields
      ensures ParseFieldKey(k).Some?
    {
      var f :| Seeds(d, suggest, f) && k == FieldKey(f.id);
      FieldKeyParses(f.id);
    }
    forall k, q | k in fields && q in fields && fields[k].path == fields[q].path
      ensures k == q
    {
      SeedPathOnce(d, suggest, fields, k, q);
    }
  }

  lemma SeedPathOnce(d: DeviceRec, suggest: Suggest, fields: map<string, FieldMapping>, k: string, q: string)
    requires IsSeed(d, suggest, fields) && k in fields && q in fields && fields[k].path == fields[q].path
    ensures k == q
  {
    var f :| Seeds(d, suggest, f) && k == FieldKey(f.id);
    var g :| Seeds(d, suggest, g) && q == FieldKey(g.id);
    assert suggest(d, f).value.path == suggest(d, g).value.path;
    assert !(g.id < f.id) && !(f.id < g.id);
  }

  /** A device's entry in a seeded mapping. */
  ghost predicate IsSeedEntry(d: DeviceRec, suggest: Suggest, dm: DeviceMapping) {
    dm.article == d.article && dm.firmware == d.firmware && dm.name == d.name && dm.instance == d.instance &&
    dm.fields != map[] && IsSeed(d, suggest, dm.fields)
  }

  ghost predicate HasSeed(d: DeviceRec, suggest: Suggest) {
    exists f :: Seeds(d, suggest, f)
  }

  lemma SeedEmptyIff(d: DeviceRec, suggest: Suggest, fields: map<string, FieldMapping>)
    requires IsSeed(d, suggest, fields)
    ensures fields != map[] <==> HasSeed(d, suggest)
  {
  }

  /** Of the first `n` devices, this is the last with the serial number and the property. */
  ghost predicate IsLastWith(devices: seq<DeviceRec>, n: nat, serial: string, has: DeviceRec -> bool, i: nat)
    requires n <= |devices|
  {
    i < n && devices[i].serial == serial && has(devices[i]) &&
    forall j :: i < j < n && devices[j].serial == serial ==> !has(devices[j])
  }

  /** An entry is made from the last of the first `n` devices that has its serial number and the property. */
  ghost predicate SeededBy(devices: seq<DeviceRec>, n: nat, serial: string, dm: DeviceMapping,
                           has: DeviceRec -> bool, makes: (DeviceRec, DeviceMapping) -> bool)
    requires n <= |devices|
  {
    serial != "" && exists i: nat :: IsLastWith(devices, n, serial, has, i) && makes(devices[i], dm)
  }

  /** The first `n` devices have been seeded. */
  ghost predicate SeededTo(devices: seq<DeviceRec>, n: nat, m: Devices,
                           has: DeviceRec -> bool, makes: (DeviceRec, DeviceMapping) -> bool)
    requires n <= |devices|
  {
    (forall serial :: serial in m ==> SeededBy(devices, n, serial, m[serial], has, makes)) &&
    forall i :: 0 <= i < n && devices[i].serial != "" && has(devices[i]) ==> devices[i].serial in m
  }

  lemma StaysLast(devices: seq<DeviceRec>, n: nat, serial: string, dm: DeviceMapping,
                  has: DeviceRec -> bool, makes: (DeviceRec, DeviceMapping) -> bool)
    requires n < |devices| && SeededBy(devices, n, serial, dm, has, makes)
    requires devices[n].serial != serial || !has(devices[n])
    ensures SeededBy(devices, n + 1, serial, dm, has, makes)
  {
    var i: nat :| IsLastWith(devices, n, serial, has, i) && makes(devices[i], dm);
    assert IsLastWith(devices, n + 1, serial, has, i);
  }

  lemma UnseededNext(devices: seq<DeviceRec>, n: nat, m: Devices,
                     has: DeviceRec -> bool, makes: (DeviceRec, DeviceMapping) -> bool)
    requires n < |devices| && SeededTo(devices, n, m, has, makes)
    requires devices[n].serial == "" || !has(devices[n])
    ensures SeededTo(devices, n + 1, m, has, makes)
  {
    forall serial | serial in m
      ensures SeededBy(devices, n + 1, serial, m[serial], has, makes)
    {
      StaysLast(devices, n, serial, m[serial], has, makes);
    }
  }

  lemma SeededNext(devices: seq<DeviceRec>, n: nat, m: Devices, dm: DeviceMapping,
                   has: DeviceRec -> bool, makes: (DeviceRec, DeviceMapping) -> bool)
    requires n < |devices| && devices[n].serial != "" && SeededTo(devices, n, m, has, makes)
    requires has(devices[n]) && makes(devices[n], dm)
    ensures SeededTo(devices, n + 1, m[devices[n].serial := dm], has, makes)
  {
    var more := m[devices[n].serial := dm];
    forall serial | serial in more
      ensures SeededBy(devices, n + 1, serial, more[serial], has, makes)
    {
      if serial == devices[n].serial {
        assert IsLastWith(devices, n + 1, serial, has, n);
      } else {
        StaysLast(devices, n, serial, m[serial], has, makes);
      }
    }
  }

  /** A serial number's entry is the seed of the last device that has the number and a suggestion. */
  ghost predicate SeededFrom(devices: seq<DeviceRec>, suggest: Suggest, serial: string, dm: DeviceMapping) {
    SeededBy(devices, |devices|, serial, dm, d => HasSeed(d, suggest), (d, dm) => IsSeedEntry(d, suggest, dm))
  }

  /** Seed every device that has a serial number and a field with a suggestion; of several devices with one
      serial number, the last counts. */
  method SeedMapping(devices: seq<DeviceRec>, suggest: Suggest) returns (m: Devices)
    requires forall d :: d in devices ==> DistinctIds(d.fields)
    ensures forall serial :: serial in m ==> SeededFrom(devices, suggest, serial, m[serial])
    ensures forall i :: 0 <= i < |devices| && devices[i].serial != "" && HasSeed(devices[i], suggest) ==> devices[i].serial in m
  {
    ghost var has := (d: DeviceRec) => HasSeed(d, suggest);
    ghost var makes := (d: DeviceRec, dm: DeviceMapping) => IsSeedEntry(d, suggest, dm);
    m := map[];
    for n := 0 to |devices|
      invariant SeededTo(devices, n, m, has, makes)
    {
      m := SeedNext(devices, n, suggest, m, has, makes);
    }
    assert forall d :: has(d) == HasSeed(d, suggest);
  }

  /** Seed one more device. */
  method SeedNext(devices: seq<DeviceRec>, n: nat, suggest: Suggest, m: Devices,
                  ghost has: DeviceRec -> bool, ghost makes: (DeviceRec, DeviceMapping) -> bool)
      returns (more: Devices)
    requires n < |devices| && DistinctIds(devices[n].fields) && SeededTo(devices, n, m, has, makes)
    requires has(devices[n]) <==> HasSeed(devices[n], suggest)
    requires forall dm :: makes(devices[n], dm) <==> IsSeedEntry(devices[n], suggest, dm)
    ensures SeededTo(devices, n + 1, more, has, makes)
  {
    var d := devices[n];
    more := m;
    if d.serial != "" {
      var dm := SeedEntryOf(d, suggest);
      if dm.Some? {
        assert makes(d, dm.value);
        SeededNext(devices, n, m, dm.value, has, makes);
        return m[d.serial := dm.value];
      }
    }
    UnseededNext(devices, n, m, has, makes);
  }

  /** A device's entry, if any of its fields has a suggestion. */
  method SeedEntryOf(d: DeviceRec, suggest: Suggest) returns (dm: Option<DeviceMapping>)
    requires DistinctIds(d.fields)
    ensures dm.Some? <==> HasSeed(d, suggest)
    ensures dm.Some? ==> IsSeedEntry(d, suggest, dm.value)
  {
    var fields := SeedDevice(d, suggest);
    SeedEmptyIff(d, suggest, fields);
    dm := if fields == map[] then None
          else Some(DeviceMapping(d.article, d.firmware, d.name, d.instance, fields));
  }

  // ----- resolving

  datatype Kind =
    | NotOnBus
    | FirmwareChanged
    | NotAFieldId
    | NoSuchField
    | Refused(why: Refusal)
    | UnitAsReported(unit: string)
    | ReadOnly

  datatype Severity = Info | Warning | Error

  function SeverityOf(kind: Kind): Severity {
    match kind
    case NotOnBus => Info
    case NotAFieldId => Error
    case NoSuchField => Error
    case Refused(_) => Error
    case _ => Warning
  }

  datatype Diagnostic = Diagnostic(kind: Kind, serial: string, key: Option<string>)

  datatype Emit = Emit(path: string, plan: Plan, device: string, put: bool)

  function FieldOf(fields: seq<FieldRec>, id: Word): (r: Option<FieldRec>)
    ensures r.Some? ==> r.value in fields && r.value.id == id
    ensures r.None? ==> !HasId(fields, id)
  {
    if fields == [] then None
    else if fields[0].id == id then Some(fields[0])
    else
      assert fields == [fields[0]] + fields[1..];
      FieldOf(fields[1..], id)
  }

  /** The field and plan an entry comes to, or what is wrong with it. */
  function EntryPlan(dev: DeviceRec, key: string, fm: FieldMapping): Result<(FieldRec, Plan), Kind> {
    match ParseFieldKey(key)
    case None => Err(NotAFieldId)
    case Some(id) =>
      match FieldOf(dev.fields, id)
      case None => Err(NoSuchField)
      case Some(f) =>
        match PlanSpec(fm.path, f.unit, f.options, fm)
        case Err(e) => Err(Refused(e))
        case Ok(p) => Ok((f, p))
  }

  /** What entries come to: `EntryPlan`. What follows holds of any rule. */
  type Planner = (DeviceRec, string, FieldMapping) -> Result<(FieldRec, Plan), Kind>

  predicate Emits(plan: Planner, dev: DeviceRec, fields: map<string, FieldMapping>, key: string, id: Word) {
    key in fields && plan(dev, key, fields[key]).Ok? && plan(dev, key, fields[key]).value.0.id == id
  }

  function EmitOf(dev: DeviceRec, fm: FieldMapping, plan: Plan): Emit {
    Emit(fm.path, plan, dev.name, fm.put)
  }

  predicate EmitsAs(plan: Planner, dev: DeviceRec, fields: map<string, FieldMapping>, key: string, id: Word, e: Emit) {
    Emits(plan, dev, fields, key, id) && e == EmitOf(dev, fields[key], plan(dev, key, fields[key]).value.1)
  }

  /** What is said about one entry. */
  function EntryDiags(plan: Planner, dev: DeviceRec, serial: string, key: string, fm: FieldMapping): seq<Diagnostic> {
    match plan(dev, key, fm)
    case Err(kind) => [Diagnostic(kind, serial, Some(key))]
    case Ok((f, p)) =>
      (if p.warning.Some? then [Diagnostic(UnitAsReported(p.warning.value), serial, Some(key))] else []) +
      (if fm.put && !f.writable then [Diagnostic(ReadOnly, serial, Some(key))] else [])
  }

  /** One Error for each entry that fails, and none for one that is emitted. */
  lemma ErrorIffNotEmitted(dev: DeviceRec, serial: string, key: string, fm: FieldMapping)
    ensures EntryPlan(dev, key, fm).Err? ==>
      EntryDiags(EntryPlan, dev, serial, key, fm) == [Diagnostic(EntryPlan(dev, key, fm).error, serial, Some(key))] &&
      SeverityOf(EntryPlan(dev, key, fm).error) == Error
    ensures EntryPlan(dev, key, fm).Ok? ==>
      forall d :: d in EntryDiags(EntryPlan, dev, serial, key, fm) ==> SeverityOf(d.kind) == Warning
  {
  }

  /** The diagnostics due for a device's entries among some keys. */
  predicate DueIn(plan: Planner, dev: DeviceRec, serial: string, fields: map<string, FieldMapping>, keys: set<string>,
                  d: Diagnostic) {
    d.key.Some? && d.key.value in keys && d.key.value in fields && d in EntryDiags(plan, dev, serial, d.key.value, fields[d.key.value])
  }

  /** An entry emits a field, and no entry after it does, of some keys. */
  ghost predicate EmitsLast(plan: Planner, dev: DeviceRec, fields: map<string, FieldMapping>, keys: set<string>,
                            key: string, id: Word, e: Emit) {
    EmitsAs(plan, dev, fields, key, id, e) &&
    forall q :: q in keys && Emits(plan, dev, fields, q, id) ==> q == key || Before(q, key)
  }

  /** The entries of some keys have been resolved: exactly those that come to a plan are emitted, the last of
      several for one field. */
  ghost predicate EmittedTo(plan: Planner, dev: DeviceRec, fields: map<string, FieldMapping>, keys: set<string>,
                            emit: map<Word, Emit>) {
    (forall k, id :: k in keys && Emits(plan, dev, fields, k, id) ==> id in emit) &&
    forall id :: id in emit ==> exists k :: k in keys && EmitsLast(plan, dev, fields, keys, k, id, emit[id])
  }

  ghost predicate DiagnosedTo(plan: Planner, dev: DeviceRec, serial: string, fields: map<string, FieldMapping>,
                              keys: set<string>, diags: seq<Diagnostic>) {
    forall d :: multiset(diags)[d] == if DueIn(plan, dev, serial, fields, keys, d) then 1 else 0
  }

  /** One entry of a device that is on the bus. */
  method ResolveEntry(dev: DeviceRec, serial: string, key: string, fm: FieldMapping)
      returns (emit: Option<(Word, Emit)>, diags: seq<Diagnostic>)
    ensures diags == EntryDiags(EntryPlan, dev, serial, key, fm)
    ensures emit == match EntryPlan(dev, key, fm)
      case Err(_) => None
      case Ok((f, p)) => Some((f.id, EmitOf(dev, fm, p)))
  {
    emit, diags := None, [];
    var id := ParseFieldKey(key);
    if id.None? {
      return None, [Diagnostic(NotAFieldId, serial, Some(key))];
    }
    var f := FieldOf(dev.fields, id.value);
    if f.None? {
      return None, [Diagnostic(NoSuchField, serial, Some(key))];
    }
    var plan := MakePlan(fm.path, f.value.unit, f.value.options, fm);
    match plan
    case Err(e) => diags := [Diagnostic(Refused(e), serial, Some(key))];
    case Ok(p) =>
      if p.warning.Some? {
        diags := diags + [Diagnostic(UnitAsReported(p.warning.value), serial, Some(key))];
      }
      if fm.put && !f.value.writable {
        diags := diags + [Diagnostic(ReadOnly, serial, Some(key))];
      }
      emit := Some((id.value, Emit(fm.path, p, dev.name, fm.put)));
  }

  /** All entries of a device that is on the bus, in the order of their keys. */
  method ResolveDevice(dev: DeviceRec, serial: string, fields: map<string, FieldMapping>)
      returns (emit: map<Word, Emit>, diags: seq<Diagnostic>)
    ensures EmittedTo(EntryPlan, dev, fields, fields.Keys, emit)
    ensures DiagnosedTo(EntryPlan, dev, serial, fields, fields.Keys, diags)
  {
    emit, diags := map[], [];
    var left := fields.Keys;
    ghost var done: set<string> := {};
    while left != {}
      invariant left <= fields.Keys && done == fields.Keys - left
      invariant forall q, k :: q in done && k in left ==> Before(q, k)
      invariant EmittedTo(EntryPlan, dev, fields, done, emit)
      invariant DiagnosedTo(EntryPlan, dev, serial, fields, done, diags)
      decreases |left|
    {
      ghost var first := Least(left);
      var key :| key in left && forall k :: k in left ==> k == key || Before(key, k);
      var e, ds := ResolveEntry(dev, serial, key, fields[key]);
      EmittedNext(EntryPlan, dev, fields, done, emit, key);
      DiagnosedNext(EntryPlan, dev, serial, fields, done, diags, key);
      left := left - {key};
      done := done + {key};
      if e.Some? {
        emit := emit[e.value.0 := e.value.1];
      }
      diags := diags + ds;
    }
    assert done == fields.Keys;
  }

  lemma EmittedNext(plan: Planner, dev: DeviceRec, fields: map<string, FieldMapping>, done: set<string>,
                    emit: map<Word, Emit>, key: string)
    requires key in fields && EmittedTo(plan, dev, fields, done, emit) && forall q :: q in done ==> Before(q, key)
    ensures EmittedTo(plan, dev, fields, done + {key},
      match plan(dev, key, fields[key])
      case Err(_) => emit
      case Ok((f, p)) => emit[f.id := EmitOf(dev, fields[key], p)])
  {
    var more := match plan(dev, key, fields[key])
      case Err(_) => emit
      case Ok((f, p)) => emit[f.id := EmitOf(dev, fields[key], p)];
    forall id | id in more
      ensures exists k :: k in done + {key} && EmitsLast(plan, dev, fields, done + {key}, k, id, more[id])
    {
      if Emits(plan, dev, fields, key, id) {
        assert EmitsLast(plan, dev, fields, done + {key}, key, id, more[id]);
      } else {
        var k :| k in done && EmitsLast(plan, dev, fields, done, k, id, emit[id]);
        assert EmitsLast(plan, dev, fields, done + {key}, k, id, more[id]);
      }
    }
  }

  lemma DiagnosedNext(plan: Planner, dev: DeviceRec, serial: string, fields: map<string, FieldMapping>,
                      done: set<string>, diags: seq<Diagnostic>, key: string)
    requires key in fields && key !in done && DiagnosedTo(plan, dev, serial, fields, done, diags)
    ensures DiagnosedTo(plan, dev, serial, fields, done + {key}, diags + EntryDiags(plan, dev, serial, key, fields[key]))
  {
  }

  // ----- all devices

  /** The device on the bus with a serial number; of several, the last. */
  function BySerial(devices: seq<DeviceRec>, serial: string): (r: Option<DeviceRec>)
    ensures r.Some? ==> r.value in devices && r.value.serial == serial != ""
  {
    if devices == [] then None
    else
      var n := |devices| - 1;
      assert devices == devices[..n] + [devices[n]];
      if devices[n].serial == serial && serial != "" then Some(devices[n]) else BySerial(devices[..n], serial)
  }

  /** What is due about a mapped device. */
  predicate DueFor(plan: Planner, devices: seq<DeviceRec>, serial: string, dm: DeviceMapping, d: Diagnostic) {
    match BySerial(devices, serial)
    case None => d == Diagnostic(NotOnBus, serial, None)
    case Some(dev) =>
      (dm.firmware != "" && dm.firmware != dev.firmware && d == Diagnostic(FirmwareChanged, serial, None)) ||
      DueIn(plan, dev, serial, dm.fields, dm.fields.Keys, d)
  }

  /** What is due about the mapped devices among some serial numbers. */
  predicate Due(plan: Planner, devices: seq<DeviceRec>, mapping: Devices, serials: set<string>, d: Diagnostic) {
    d.serial in serials && d.serial in mapping && DueFor(plan, devices, d.serial, mapping[d.serial], d)
  }

  /** A mapped device on the bus emits a field. */
  predicate Published(plan: Planner, devices: seq<DeviceRec>, mapping: Devices, serial: string, key: string,
                      at: (nat, Word)) {
    serial in mapping && BySerial(devices, serial).Some? &&
    BySerial(devices, serial).value.id == at.0 && Emits(plan, BySerial(devices, serial).value, mapping[serial].fields, key, at.1)
  }

  predicate PublishedAs(plan: Planner, devices: seq<DeviceRec>, mapping: Devices, serial: string, key: string,
                        at: (nat, Word), e: Emit) {
    Published(plan, devices, mapping, serial, key, at) &&
    EmitsAs(plan, BySerial(devices, serial).value, mapping[serial].fields, key, at.1, e)
  }

  /** An entry publishes a field, and no entry after it does, of some serial numbers. */
  ghost predicate PublishedLast(plan: Planner, devices: seq<DeviceRec>, mapping: Devices, serials: set<string>,
                                serial: string, key: string, at: (nat, Word), e: Emit) {
    PublishedAs(plan, devices, mapping, serial, key, at, e) &&
    forall q, k :: q in serials && Published(plan, devices, mapping, q, k, at) ==>
      Before(q, serial) || (q == serial && (k == key || Before(k, key)))
  }

  ghost predicate ResolvedAt(plan: Planner, devices: seq<DeviceRec>, mapping: Devices, serials: set<string>,
                             at: (nat, Word), e: Emit) {
    exists serial, key :: serial in serials && PublishedLast(plan, devices, mapping, serials, serial, key, at, e)
  }

  /** Exactly what the mapped devices among some serial numbers emit, the last of several for one field. */
  ghost predicate ResolvedTo(plan: Planner, devices: seq<DeviceRec>, mapping: Devices, serials: set<string>,
                             emit: map<(nat, Word), Emit>) {
    (forall serial, key, at :: serial in serials && Published(plan, devices, mapping, serial, key, at) ==> at in emit) &&
    forall at :: at in emit ==> ResolvedAt(plan, devices, mapping, serials, at, emit[at])
  }

  ghost predicate SaidTo(plan: Planner, devices: seq<DeviceRec>, mapping: Devices, serials: set<string>,
                         diags: seq<Diagnostic>) {
    forall d :: multiset(diags)[d] == if Due(plan, devices, mapping, serials, d) then 1 else 0
  }

  /** A device's fields, each with the device's address. */
  function Tagged(fields: map<Word, Emit>, device: nat): (emit: map<(nat, Word), Emit>)
    ensures forall at :: (at in emit <==> at.0 == device && at.1 in fields) && (at in emit ==> emit[at] == fields[at.1])
  {
    map at | at in set id | id in fields :: (device, id) :: fields[at.1]
  }

  /** One mapped device. */
  method ResolveSerial(devices: seq<DeviceRec>, serial: string, dm: DeviceMapping)
      returns (emit: map<(nat, Word), Emit>, diags: seq<Diagnostic>, ghost fields: map<Word, Emit>)
    ensures match BySerial(devices, serial)
      case None => emit == map[]
      case Some(dev) => EmittedTo(EntryPlan, dev, dm.fields, dm.fields.Keys, fields) && emit == Tagged(fields, dev.id)
    ensures forall d :: multiset(diags)[d] == if d.serial == serial && DueFor(EntryPlan, devices, serial, dm, d) then 1 else 0
  {
    emit, diags, fields := map[], [], map[];
    var found := BySerial(devices, serial);
    if found.None? {
      diags := [Diagnostic(NotOnBus, serial, None)];
      return;
    }
    var dev := found.value;
    if dm.firmware != "" && dm.firmware != dev.firmware {
      diags := [Diagnostic(FirmwareChanged, serial, None)];
    }
    var own, ds := ResolveDevice(dev, serial, dm.fields);
    fields := own;
    emit := Tagged(own, dev.id);
    SerialDiags(EntryPlan, devices, serial, dm, dev, diags, ds);
    diags := diags + ds;
  }

  lemma SerialDiags(plan: Planner, devices: seq<DeviceRec>, serial: string, dm: DeviceMapping, dev: DeviceRec,
                    first: seq<Diagnostic>, rest: seq<Diagnostic>)
    requires BySerial(devices, serial) == Some(dev) && DiagnosedTo(plan, dev, serial, dm.fields, dm.fields.Keys, rest)
    requires first == if dm.firmware != "" && dm.firmware != dev.firmware then [Diagnostic(FirmwareChanged, serial, None)] else []
    ensures forall d :: multiset(first + rest)[d] == if d.serial == serial && DueFor(plan, devices, serial, dm, d) then 1 else 0
  {
  }

  /** Resolve the mapping against the devices on the bus: exactly the fields whose entry can be honoured are
      emitted, and exactly what is due is said, once. */
  method Resolve(devices: seq<DeviceRec>, mapping: Devices) returns (emit: map<(nat, Word), Emit>,
                 diags: seq<Diagnostic>)
    ensures ResolvedTo(EntryPlan, devices, mapping, mapping.Keys, emit)
    ensures SaidTo(EntryPlan, devices, mapping, mapping.Keys, diags)
  {
    emit, diags := map[], [];
    var left := mapping.Keys;
    ghost var done: set<string> := {};
    while left != {}
      invariant left <= mapping.Keys && done == mapping.Keys - left
      invariant forall q, k :: q in done && k in left ==> Before(q, k)
      invariant ResolvedTo(EntryPlan, devices, mapping, done, emit)
      invariant SaidTo(EntryPlan, devices, mapping, done, diags)
      decreases |left|
    {
      ghost var first := Least(left);
      var serial :| serial in left && forall k :: k in left ==> k == serial || Before(serial, k);
      ghost var fields;
      var es, ds;
      es, ds, fields := ResolveSerial(devices, serial, mapping[serial]);
      ResolvedNext(EntryPlan, devices, mapping, done, emit, serial, es, fields);
      SaidNext(EntryPlan, devices, mapping, done, diags, serial, ds);
      left := left - {serial};
      done := done + {serial};
      emit := emit + es;
      diags := diags + ds;
    }
    assert done == mapping.Keys;
  }

  lemma SaidNext(plan: Planner, devices: seq<DeviceRec>, mapping: Devices, done: set<string>, diags: seq<Diagnostic>,
                 serial: string, more: seq<Diagnostic>)
    requires serial in mapping && serial !in done && SaidTo(plan, devices, mapping, done, diags)
    requires forall d :: multiset(more)[d] == if d.serial == serial && DueFor(plan, devices, serial, mapping[serial], d) then 1 else 0
    ensures SaidTo(plan, devices, mapping, done + {serial}, diags + more)
  {
  }

  lemma ResolvedNext(plan: Planner, devices: seq<DeviceRec>, mapping: Devices, done: set<string>,
                     emit: map<(nat, Word), Emit>,
                     serial: string, more: map<(nat, Word), Emit>, fields: map<Word, Emit>)
    requires ResolvedTo(plan, devices, mapping, done, emit) && IsOf(plan, devices, mapping, serial, more, fields)
    requires forall q :: q in done ==> Before(q, serial)
    ensures ResolvedTo(plan, devices, mapping, done + {serial}, emit + more)
  {
    ResolvedAll(plan, devices, mapping, done, emit, serial, more, fields);
    ResolvedOnly(plan, devices, mapping, done, emit, serial, more, fields);
  }

  lemma ResolvedAll(plan: Planner, devices: seq<DeviceRec>, mapping: Devices, done: set<string>,
                    emit: map<(nat, Word), Emit>,
                    serial: string, more: map<(nat, Word), Emit>, fields: map<Word, Emit>)
    requires forall q, key, at :: q in done && Published(plan, devices, mapping, q, key, at) ==> at in emit
    requires IsOf(plan, devices, mapping, serial, more, fields)
    ensures forall q, key, at :: q in done + {serial} && Published(plan, devices, mapping, q, key, at) ==> at in emit + more
  {
  }

  lemma ResolvedOnly(plan: Planner, devices: seq<DeviceRec>, mapping: Devices, done: set<string>,
                     emit: map<(nat, Word), Emit>,
                     serial: string, more: map<(nat, Word), Emit>, fields: map<Word, Emit>)
    requires forall at :: at in emit ==> ResolvedAt(plan, devices, mapping, done, at, emit[at])
    requires IsOf(plan, devices, mapping, serial, more, fields) && forall q :: q in done ==> Before(q, serial)
    ensures forall at :: at in emit + more ==>
      ResolvedAt(plan, devices, mapping, done + {serial}, at, (emit + more)[at])
  {
    forall at | at in emit + more
      ensures ResolvedAt(plan, devices, mapping, done + {serial}, at, (emit + more)[at])
    {
      if at in more {
        var key := TaggedIsPublished(plan, devices, mapping, serial, more, fields, at);
        assert PublishedLast(plan, devices, mapping, done + {serial}, serial, key, at, (emit + more)[at]);
      } else {
        var q, key :| q in done && PublishedLast(plan, devices, mapping, done, q, key, at, emit[at]);
        NotTagged(plan, devices, mapping, serial, more, fields, at);
        assert PublishedLast(plan, devices, mapping, done + {serial}, q, key, at, (emit + more)[at]);
      }
    }
  }

  lemma NotTagged(plan: Planner, devices: seq<DeviceRec>, mapping: Devices, serial: string,
                  more: map<(nat, Word), Emit>, fields: map<Word, Emit>, at: (nat, Word))
    requires IsOf(plan, devices, mapping, serial, more, fields) && at !in more
    ensures forall k :: !Published(plan, devices, mapping, serial, k, at)
  {
  }

  /** What one mapped device emits, if it is on the bus. */
  ghost predicate IsOf(plan: Planner, devices: seq<DeviceRec>, mapping: Devices, serial: string,
                       more: map<(nat, Word), Emit>, fields: map<Word, Emit>)
  {
    serial in mapping &&
    match BySerial(devices, serial)
    case None => more == map[]
    case Some(dev) =>
      EmittedTo(plan, dev, mapping[serial].fields, mapping[serial].fields.Keys, fields) && more == Tagged(fields, dev.id)
  }

  lemma TaggedIsPublished(plan: Planner, devices: seq<DeviceRec>, mapping: Devices, serial: string,
                          more: map<(nat, Word), Emit>, fields: map<Word, Emit>, at: (nat, Word))
      returns (key: string)
    requires IsOf(plan, devices, mapping, serial, more, fields) && at in more
    ensures PublishedLast(plan, devices, mapping, {serial}, serial, key, at, more[at])
  {
    var dev, own := BySerial(devices, serial).value, mapping[serial].fields;
    key :| key in own.Keys && EmitsLast(plan, dev, own, own.Keys, key, at.1, fields[at.1]);
  }

  // ----- what is emitted and said

  /** An entry comes to a plan for a field of the device: its key is the field's, and the plan is made for the
      entry's path from the field's unit and options. */
  ghost predicate ComesTo(dev: DeviceRec, key: string, fm: FieldMapping, f: FieldRec, p: Plan) {
    ParseFieldKey(key) == Some(f.id) && f in dev.fields && PlanSpec(fm.path, f.unit, f.options, fm) == Ok(p)
  }

  /** A field of the device is found by its id. */
  lemma FieldIsFound(fields: seq<FieldRec>, f: FieldRec)
    requires DistinctIds(fields) && f in fields
    ensures FieldOf(fields, f.id) == Some(f)
  {
    var found := FieldOf(fields, f.id);
    var i :| 0 <= i < |fields| && fields[i] == f;
    assert HasId(fields, f.id);
    var j :| 0 <= j < |fields| && fields[j] == found.value;
  }

  lemma EntryPlanIs(dev: DeviceRec, key: string, fm: FieldMapping, f: FieldRec, p: Plan)
    requires DistinctIds(dev.fields)
    ensures EntryPlan(dev, key, fm) == Ok((f, p)) <==> ComesTo(dev, key, fm, f, p)
  {
    if f in dev.fields {
      FieldIsFound(dev.fields, f);
    }
  }

  /** An entry is refused: its key is of this field of the device, and the plan for it is refused. */
  ghost predicate IsRefused(dev: DeviceRec, key: string, fm: FieldMapping, f: FieldRec, e: Refusal) {
    ParseFieldKey(key) == Some(f.id) && f in dev.fields && PlanSpec(fm.path, f.unit, f.options, fm) == Err(e)
  }

  /** What an entry fails for: a key that is no field id, a field the device does not have, or the plan's refusal. */
  lemma EntryFailsFor(dev: DeviceRec, key: string, fm: FieldMapping)
    requires DistinctIds(dev.fields)
    ensures EntryPlan(dev, key, fm) == Err(NotAFieldId) <==> ParseFieldKey(key).None?
    ensures EntryPlan(dev, key, fm) == Err(NoSuchField) <==>
      ParseFieldKey(key).Some? && forall f :: f in dev.fields ==> f.id != ParseFieldKey(key).value
    ensures forall f, e :: IsRefused(dev, key, fm, f, e) ==> EntryPlan(dev, key, fm) == Err(Refused(e))
  {
    if ParseFieldKey(key).Some? {
      forall f | f in dev.fields
        ensures FieldOf(dev.fields, f.id) == Some(f)
      {
        FieldIsFound(dev.fields, f);
      }
    }
  }

  /** What is published for a field: the path and PUT flag of an entry of its device, under the plan made for it and
      the device's name. */
  ghost predicate IsEmitted(devices: seq<DeviceRec>, mapping: Devices, at: (nat, Word), e: Emit) {
    exists dev: DeviceRec, key: string, f: FieldRec ::
      dev in devices && dev.id == at.0 && dev.serial in mapping && key in mapping[dev.serial].fields && f.id == at.1 &&
      IsEmitOf(dev, key, mapping[dev.serial].fields[key], f, e)
  }

  ghost predicate IsEmitOf(dev: DeviceRec, key: string, fm: FieldMapping, f: FieldRec, e: Emit) {
    ComesTo(dev, key, fm, f, e.plan) && e.path == fm.path && e.put == fm.put && e.device == dev.name
  }

  lemma EmittedFrom(plan: Planner, devices: seq<DeviceRec>, mapping: Devices, emit: map<(nat, Word), Emit>,
                    at: (nat, Word)) returns (serial: string, key: string)
    requires ResolvedTo(plan, devices, mapping, mapping.Keys, emit) && at in emit
    ensures PublishedAs(plan, devices, mapping, serial, key, at, emit[at])
  {
    assert ResolvedAt(plan, devices, mapping, mapping.Keys, at, emit[at]);
    var p, k :| p in mapping.Keys && PublishedLast(plan, devices, mapping, mapping.Keys, p, k, at, emit[at]);
    serial, key := p, k;
  }

  lemma EmitsAsIs(dev: DeviceRec, fields: map<string, FieldMapping>, key: string, id: Word, e: Emit) returns (f: FieldRec)
    requires DistinctIds(dev.fields) && EmitsAs(EntryPlan, dev, fields, key, id, e)
    ensures key in fields && f.id == id && IsEmitOf(dev, key, fields[key], f, e)
  {
    f := EntryPlan(dev, key, fields[key]).value.0;
    EntryPlanIs(dev, key, fields[key], f, EntryPlan(dev, key, fields[key]).value.1);
  }

  lemma EmittedAre(devices: seq<DeviceRec>, mapping: Devices, emit: map<(nat, Word), Emit>, at: (nat, Word))
    requires forall d :: d in devices ==> DistinctIds(d.fields)
    requires ResolvedTo(EntryPlan, devices, mapping, mapping.Keys, emit) && at in emit
    ensures IsEmitted(devices, mapping, at, emit[at])
  {
    var serial, key := EmittedFrom(EntryPlan, devices, mapping, emit, at);
    var dev := BySerial(devices, serial).value;
    var f := EmitsAsIs(dev, mapping[serial].fields, key, at.1, emit[at]);
  }

  /** Of several devices with one serial number it is the last that is mapped. */
  lemma {:induction false} BySerialIsLast(devices: seq<DeviceRec>, serial: string, i: nat)
    requires i < |devices| && devices[i].serial == serial != ""
    requires forall j :: i < j < |devices| ==> devices[j].serial != serial
    ensures BySerial(devices, serial) == Some(devices[i])
  {
    if i < |devices| - 1 {
      BySerialIsLast(devices[..|devices| - 1], serial, i);
    }
  }

  /** A device that is mapped but not on the bus is said to be missing, and nothing else is said of it; of one on
      the bus, another firmware than the recorded one is warned of. */
  lemma SaidOfDevice(devices: seq<DeviceRec>, mapping: Devices, diags: seq<Diagnostic>, serial: string)
    requires SaidTo(EntryPlan, devices, mapping, mapping.Keys, diags) && serial in mapping
    ensures (forall d :: d in devices ==> d.serial != serial) || serial == "" ==>
      forall d :: d in diags && d.serial == serial <==> d == Diagnostic(NotOnBus, serial, None)
    ensures BySerial(devices, serial).Some? ==>
      var recorded, now := mapping[serial].firmware, BySerial(devices, serial).value.firmware;
      (Diagnostic(FirmwareChanged, serial, None) in diags <==> recorded != "" && recorded != now) &&
      Diagnostic(NotOnBus, serial, None) !in diags
    ensures SeverityOf(NotOnBus) == Info && SeverityOf(FirmwareChanged) == Warning
  {
    forall d
      ensures d in diags <==> Due(EntryPlan, devices, mapping, mapping.Keys, d)
    {
      assert d in diags <==> multiset(diags)[d] > 0;
    }
  }

  /** What is said of an entry that is emitted: a unit that is published as the device has it, and a PUT to a field
      that cannot be written; of one that fails, what it fails for. */
  lemma SaidOfEntry(devices: seq<DeviceRec>, mapping: Devices, diags: seq<Diagnostic>, serial: string, key: string,
                    kind: Kind)
    requires SaidTo(EntryPlan, devices, mapping, mapping.Keys, diags)
    requires serial in mapping && BySerial(devices, serial).Some? && key in mapping[serial].fields
    ensures var fm := mapping[serial].fields[key];
      Diagnostic(kind, serial, Some(key)) in diags <==>
        match EntryPlan(BySerial(devices, serial).value, key, fm)
        case Err(e) => kind == e
        case Ok((f, p)) =>
          (kind.UnitAsReported? && p.warning == Some(kind.unit)) || (kind == ReadOnly && fm.put && !f.writable)
  {
    var d := Diagnostic(kind, serial, Some(key));
    assert d in diags <==> multiset(diags)[d] > 0;
    assert d in diags <==> Due(EntryPlan, devices, mapping, mapping.Keys, d);
  }

  /** Two emitted fields of a device have one path. */
  predicate SamePath(emit: map<(nat, Word), Emit>, device: nat, a: Word, b: Word) {
    (device, a) in emit && (device, b) in emit && emit[(device, a)].path == emit[(device, b)].path
  }

  /** Where no two entries of any device share a path, no two fields of a device are published to one. */
  lemma EmittedPathsDiffer(plan: Planner, devices: seq<DeviceRec>, mapping: Devices, emit: map<(nat, Word), Emit>,
                           device: nat, a: Word, b: Word)
    requires forall i, j :: 0 <= i < j < |devices| ==> devices[i].id != devices[j].id
    requires forall serial :: serial in mapping ==> PathsDiffer(mapping[serial].fields)
    ensures ResolvedTo(plan, devices, mapping, mapping.Keys, emit) && SamePath(emit, device, a, b) ==> a == b
  {
    if ResolvedTo(plan, devices, mapping, mapping.Keys, emit) && SamePath(emit, device, a, b) {
      var p, k :| p in mapping.Keys && PublishedLast(plan, devices, mapping, mapping.Keys, p, k, (device, a), emit[(device, a)]);
      var q, l :| q in mapping.Keys && PublishedLast(plan, devices, mapping, mapping.Keys, q, l, (device, b), emit[(device, b)]);
      var i :| 0 <= i < |devices| && devices[i] == BySerial(devices, p).value;
      var j :| 0 <= j < |devices| && devices[j] == BySerial(devices, q).value;
      assert i == j && k == l;
    }
  }

  lemma SeedEntryPathsDiffer(devices: seq<DeviceRec>, suggest: Suggest, serial: string, dm: DeviceMapping)
    requires SeededFrom(devices, suggest, serial, dm)
    ensures PathsDiffer(dm.fields)
  {
    var has := (d: DeviceRec) => HasSeed(d, suggest);
    var i: nat :| IsLastWith(devices, |devices|, serial, has, i) && IsSeedEntry(devices[i], suggest, dm);
    SeedPathsDiffer(devices[i], suggest, dm.fields);
  }

  /** After seeding, no two fields of a device are published to one path. */
  lemma SeededPathsDiffer(devices: seq<DeviceRec>, suggest: Suggest, mapping: Devices, emit: map<(nat, Word), Emit>)
    requires forall i, j :: 0 <= i < j < |devices| ==> devices[i].id != devices[j].id
    requires forall serial :: serial in mapping ==> SeededFrom(devices, suggest, serial, mapping[serial])
    requires ResolvedTo(EntryPlan, devices, mapping, mapping.Keys, emit)
    ensures forall device, a, b :: SamePath(emit, device, a, b) ==> a == b
  {
    forall serial | serial in mapping
      ensures PathsDiffer(mapping[serial].fields)
    {
      SeedEntryPathsDiffer(devices, suggest, serial, mapping[serial]);
    }
    forall device, a, b | SamePath(emit, device, a, b)
      ensures a == b
    {
      EmittedPathsDiffer(EntryPlan, devices, mapping, emit, device, a, b);
    }
  }
}
