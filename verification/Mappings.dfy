/** The mapping file: which field publishes to which path, and copying one device's mapping to others. */
module Mappings {
  import opened Prelude
  import opened Text
  import opened SignalK

  // ----- field keys

  function FieldKey(id: Word): string {
    "0x" + Hex(id, 3)
  }

  /** Without one "0x" or "0X" at the start. */
  function WithoutPrefix(s: string): string {
    if |s| >= 2 && (s[..2] == "0x" || s[..2] == "0X") then s[2..] else s
  }

  function ParseFieldKey(key: string): Option<Word> {
    FromHex(WithoutPrefix(Trim(key)), 0xFFFF)
  }

  /** A field's key is its own: it reads back as the field, with space around it or not. */
  lemma FieldKeyReadsBack(id: Word, before: string, after: string)
    requires Trim(before) == "" && Trim(after) == ""
    ensures ParseFieldKey(before + FieldKey(id) + after) == Some(id)
  {
    var k := FieldKey(id);
    TrimAround(before, k, after);
    assert k[..2] == "0x" && k[2..] == Hex(id, 3);
    HexReadsBack(id, 3, 0xFFFF);
  }

  lemma {:induction false} TrimStartConcat(a: string, b: string)
    requires TrimStart(a) == ""
    ensures TrimStart(a + b) == TrimStart(b)
  {
    if a == "" {
      assert a + b == b;
    } else {
      assert (a + b)[1..] == a[1..] + b;
      TrimStartConcat(a[1..], b);
    }
  }

  lemma {:induction false} BlankEitherWay(s: string)
    ensures Trim(s) == "" <==> forall i :: 0 <= i < |s| ==> IsSpace(s[i])
    ensures Trim(s) == "" ==> TrimStart(s) == "" && TrimEnd(s) == ""
    decreases |s|
  {
    TrimEndTwice(s);
    var e := TrimEnd(s);
    TrimStartShortens(e);
    if e != "" {
      TrimEndTwice(e);
      LastStays(e);
      assert e[|e| - 1] in e;
    } else {
      AllSpace(s);
    }
  }

  lemma {:induction false} LastStays(s: string)
    requires s != "" && !IsSpace(s[|s| - 1])
    ensures TrimStart(s) != ""
  {
    if IsSpace(s[0]) {
      LastStays(s[1..]);
    }
  }

  lemma {:induction false} AllSpace(s: string)
    requires TrimEnd(s) == ""
    ensures forall i :: 0 <= i < |s| ==> IsSpace(s[i])
    ensures TrimStart(s) == ""
  {
    if s != "" {
      AllSpace(s[..|s| - 1]);
      StartOfSpaces(s);
    }
  }

  lemma {:induction false} StartOfSpaces(s: string)
    requires forall i :: 0 <= i < |s| ==> IsSpace(s[i])
    ensures TrimStart(s) == ""
  {
    if s != "" {
      StartOfSpaces(s[1..]);
    }
  }

  lemma TrimAround(before: string, s: string, after: string)
    requires Trim(before) == "" && Trim(after) == ""
    requires s != "" && !IsSpace(s[0]) && !IsSpace(s[|s| - 1])
    ensures Trim(before + s + after) == s
  {
    BlankEitherWay(before);
    BlankEitherWay(after);
    TrimEndConcat(before + s, after);
    TrimEndTwice(before + s);
    TrimStartConcat(before, s);
  }

  /** A field's key has at least three digits, and no more than it needs. */
  lemma FieldKeyWidth(id: Word)
    ensures FieldKey(id)[..2] == "0x" && |FieldKey(id)| >= 5
    ensures id < 0x1000 ==> |FieldKey(id)| == 5
  {
    FormattedValue(id, 3, 16);
    assert id >= 16 ==> Numeral(id, 16) == Numeral(id / 16, 16) + [DigitChar(id % 16)];
    assert id / 16 >= 16 ==> Numeral(id / 16, 16) == Numeral(id / 16 / 16, 16) + [DigitChar(id / 16 % 16)];
  }

  lemma FieldKeyParses(id: Word)
    ensures ParseFieldKey(FieldKey(id)) == Some(id)
  {
    FieldKeyReadsBack(id, "", "");
    assert "" + FieldKey(id) + "" == FieldKey(id);
  }

  lemma FieldKeyInjective(a: Word, b: Word)
    requires FieldKey(a) == FieldKey(b)
    ensures a == b
  {
    FieldKeyParses(a);
    FieldKeyParses(b);
  }

  // ----- retargeting

  function Replaced(seg: seq<string>, from: string, to: string): (r: seq<string>)
    ensures |r| == |seg| && forall i :: 0 <= i < |seg| ==> r[i] == if seg[i] == from then to else seg[i]
  {
    seq(|seg|, i requires 0 <= i < |seg| => if seg[i] == from then to else seg[i])
  }

  /** Swap one segment of a path for another, wherever it is. */
  function Retarget(path: string, from: string, to: string): string {
    if from == "" || from == to then path else Join(Replaced(Split(path, '.'), from, to), '.')
  }

  lemma ReplacedFree(path: string, from: string, to: string)
    requires Free(to, '.')
    ensures Split(Join(Replaced(Split(path, '.'), from, to), '.'), '.') == Replaced(Split(path, '.'), from, to)
  {
    SplitPiecesFree(path, '.');
    SplitOfJoin(Replaced(Split(path, '.'), from, to), '.');
  }

  lemma NothingReplaced(path: string, from: string, to: string)
    requires from !in Split(path, '.')
    ensures Retarget(path, from, to) == path
  {
    JoinOfSplit(path, '.');
    assert Replaced(Split(path, '.'), from, to) == Split(path, '.');
  }

  /** The other way round undoes it, when the new segment was not in the path before. */
  lemma RetargetUndone(path: string, from: string, to: string)
    requires to !in Split(path, '.') && to != "" && Free(to, '.')
    ensures Retarget(Retarget(path, from, to), to, from) == path
  {
    var seg := Split(path, '.');
    if from == "" || from !in seg {
      if from != "" {
        NothingReplaced(path, from, to);
      }
      NothingReplaced(path, to, from);
    } else {
      ReplacedFree(path, from, to);
      assert Replaced(Replaced(seg, from, to), to, from) == seg;
      JoinOfSplit(path, '.');
    }
  }

  function Dots(s: string): nat {
    if s == "" then 0 else (if s[0] == '.' then 1 else 0) + Dots(s[1..])
  }

  lemma {:induction false} DotsAppend(a: string, b: string)
    ensures Dots(a + b) == Dots(a) + Dots(b)
  {
    if a == "" {
      assert a + b == b;
    } else {
      assert (a + b)[1..] == a[1..] + b;
      DotsAppend(a[1..], b);
    }
  }

  lemma {:induction false} NoDots(s: string)
    ensures Dots(s) == 0 <==> Free(s, '.')
  {
    if s != "" {
      NoDots(s[1..]);
      assert s == [s[0]] + s[1..];
    }
  }

  /** More dots in some part, and fewer in none, are more dots in all. */
  lemma {:induction false} JoinAddsDots(a: seq<string>, b: seq<string>)
    requires |a| == |b| && a != [] && forall i :: 0 <= i < |a| ==> Dots(a[i]) <= Dots(b[i])
    ensures Dots(Join(a, '.')) <= Dots(Join(b, '.'))
    ensures (exists i :: 0 <= i < |a| && Dots(a[i]) < Dots(b[i])) ==> Dots(Join(a, '.')) < Dots(Join(b, '.'))
  {
    if |a| > 1 {
      JoinAddsDots(a[1..], b[1..]);
      DotsAppend(a[0] + ['.'], Join(a[1..], '.'));
      DotsAppend(b[0] + ['.'], Join(b[1..], '.'));
      DotsAppend(a[0], ['.']);
      DotsAppend(b[0], ['.']);
      if i :| 0 <= i < |a| && Dots(a[i]) < Dots(b[i]) {
        if i > 0 {
          assert Dots(a[1..][i - 1]) < Dots(b[1..][i - 1]);
        }
      }
    }
  }

  lemma {:induction false} JoinShortens(a: seq<string>, b: seq<string>)
    requires |a| == |b| && a != [] && forall i :: 0 <= i < |a| ==> |a[i]| <= |b[i]|
    ensures |Join(a, '.')| <= |Join(b, '.')|
    ensures (exists i :: 0 <= i < |a| && |a[i]| < |b[i]|) ==> |Join(a, '.')| < |Join(b, '.')|
  {
    if |a| > 1 {
      JoinShortens(a[1..], b[1..]);
      if i :| 0 <= i < |a| && |a[i]| < |b[i]| {
        if i > 0 {
          assert |a[1..][i - 1]| < |b[1..][i - 1]|;
        }
      }
    }
  }

  lemma DottedIsNoSegment(path: string, to: string)
    requires !Free(to, '.')
    ensures to !in Split(path, '.')
  {
    SplitPiecesFree(path, '.');
  }

  /** Retargeting back gives the path exactly when there was nothing to swap, or the new segment is one. */
  lemma RetargetUndoneIff(path: string, from: string, to: string)
    requires to !in Split(path, '.')
    ensures Retarget(Retarget(path, from, to), to, from) == path <==>
      (from == "" || from !in Split(path, '.') || (to != "" && Free(to, '.')))
  {
    var seg := Split(path, '.');
    if from == "" || from !in seg {
      if from != "" {
        NothingReplaced(path, from, to);
      }
      NothingReplaced(path, to, from);
    } else if to != "" && Free(to, '.') {
      RetargetUndone(path, from, to);
    } else {
      var there := Retarget(path, from, to);
      if to != "" {
        DottedIsNoSegment(there, to);
        NothingReplaced(there, to, from);
      }
      RetargetChanges(path, from, to);
    }
  }

  lemma RetargetChanges(path: string, from: string, to: string)
    requires from != "" && from in Split(path, '.') && (to == "" || !Free(to, '.'))
    ensures Retarget(path, from, to) != path
  {
    JoinOfSplit(path, '.');
    if to == "" {
      LettersLost(path, from);
    } else {
      DottedIsNoSegment(path, to);
      DotsAdded(path, from, to);
    }
  }

  lemma LettersLost(path: string, from: string)
    requires from != "" && from in Split(path, '.')
    ensures Join(Replaced(Split(path, '.'), from, ""), '.') != Join(Split(path, '.'), '.')
  {
    var seg := Split(path, '.');
    var i :| 0 <= i < |seg| && seg[i] == from;
    JoinShortens(Replaced(seg, from, ""), seg);
  }

  lemma DotsAdded(path: string, from: string, to: string)
    requires from in Split(path, '.') && !Free(to, '.')
    ensures Join(Replaced(Split(path, '.'), from, to), '.') != Join(Split(path, '.'), '.')
  {
    var seg := Split(path, '.');
    SplitPiecesFree(path, '.');
    NoDots(to);
    forall j | 0 <= j < |seg|
      ensures Dots(seg[j]) == 0
    {
      NoDots(seg[j]);
    }
    JoinAddsDots(seg, Replaced(seg, from, to));
  }

  /** A path retargeted from its own instance names the new one, unless its first segment was the same word. */
  lemma RetargetNamesInstance(path: string, to: string)
    requires InstanceOf(path).Some? && InstanceOf(path).value != "" && Free(to, '.')
    requires InstanceOf(path).value != Split(path, '.')[0]
    ensures InstanceOf(Retarget(path, InstanceOf(path).value, to)) == Some(to)
  {
    var seg, from := Split(path, '.'), InstanceOf(path).value;
    var depth := NodeDepth(seg[0]);
    InstanceIs(path);
    if from != to {
      ReplacedFree(path, from, to);
      InstanceIs(Retarget(path, from, to));
    }
  }

  /** A path's instance is the last segment of its node. */
  lemma InstanceIs(path: string)
    ensures var seg := Split(path, '.');
      var depth := NodeDepth(seg[0]);
      InstanceOf(path) == if depth == 0 || |seg| <= depth then None else Some(seg[depth - 1])
  {
    var seg := Split(path, '.');
    var depth := NodeDepth(seg[0]);
    if depth != 0 && |seg| > depth {
      SplitPiecesFree(path, '.');
      SplitOfJoin(seg[..depth], '.');
    }
  }

  /** Under "electrical" and "tanks" a path of more than three segments names its third as the instance, under
      "propulsion" and "sails" one of more than two its second; no other path names any. */
  lemma InstanceIsSegment(path: string)
    ensures var seg := Split(path, '.');
      InstanceOf(path) ==
        if seg[0] in ["electrical", "tanks"] && |seg| > 3 then Some(seg[2])
        else if seg[0] in ["propulsion", "sails"] && |seg| > 2 then Some(seg[1])
        else None
  {
    InstanceIs(path);
  }

  // ----- copying

  datatype DeviceMapping = DeviceMapping(article: string, firmware: string, name: string, instance: string,
                                         fields: map<string, FieldMapping>)

  datatype Ident = Ident(serial: string, article: string, firmware: string, name: string)

  /** A device a mapping can be copied onto: its proposed instance, the fields it has, who it is. */
  datatype CopyTarget = CopyTarget(instance: string, have: set<Word>, ident: Ident)

  const NO_MAPPING: DeviceMapping := DeviceMapping("", "", "", "", map[])

  type Devices = map<string, DeviceMapping>

  function EntryOf(devices: Devices, serial: string): DeviceMapping {
    if serial in devices then devices[serial] else NO_MAPPING
  }

  /** The path a field would get on a target with this instance. */
  function CopiedPath(src: DeviceMapping, path: string, instance: string): string {
    Retarget(path, InstanceOf(path).GetOr(src.instance), instance)
  }

  /** A source field is copied: the target has it, and its path would differ. */
  predicate Copies(src: DeviceMapping, key: string, have: set<Word>, instance: string)
    requires key in src.fields
  {
    ParseFieldKey(key).Some? && ParseFieldKey(key).value in have &&
    CopiedPath(src, src.fields[key].path, instance) != src.fields[key].path
  }

  /** The source's keys that are copied. */
  function CopiedKeys(src: DeviceMapping, have: set<Word>, instance: string): set<string> {
    set k | k in src.fields && Copies(src, k, have, instance)
  }

  /** A source field as it would be on a target. */
  function CopiedField(src: DeviceMapping, key: string, instance: string): FieldMapping
    requires key in src.fields
  {
    src.fields[key].(path := CopiedPath(src, src.fields[key].path, instance))
  }

  function CopiedFields(src: DeviceMapping, have: set<Word>, instance: string): map<string, FieldMapping> {
    map k | k in CopiedKeys(src, have, instance) :: CopiedField(src, k, instance)
  }

  /** The instance an entry is built with: its own, once chosen. */
  function ChosenInstance(entry: DeviceMapping, t: CopyTarget): string {
    if entry.instance == "" then t.instance else entry.instance
  }

  /** A target's entry after the copy. */
  function EntryAfter(entry: DeviceMapping, src: DeviceMapping, t: CopyTarget): DeviceMapping {
    DeviceMapping(t.ident.article, t.ident.firmware, t.ident.name, ChosenInstance(entry, t),
                  entry.fields + CopiedFields(src, t.have, ChosenInstance(entry, t)))
  }

  /** The devices after copying onto the targets, one after the other. */
  function DevicesAfter(devices: Devices, src: DeviceMapping, targets: seq<CopyTarget>): Devices {
    if targets == [] then devices
    else
      var n := |targets| - 1;
      var before := DevicesAfter(devices, src, targets[..n]);
      var t := targets[n];
      before[t.ident.serial := EntryAfter(EntryOf(before, t.ident.serial), src, t)]
  }

  /** How many fields the copy writes. */
  function CopiedCount(devices: Devices, src: DeviceMapping, targets: seq<CopyTarget>): nat {
    if targets == [] then 0
    else
      var n := |targets| - 1;
      var before := DevicesAfter(devices, src, targets[..n]);
      var t := targets[n];
      CopiedCount(devices, src, targets[..n]) +
      |CopiedKeys(src, t.have, ChosenInstance(EntryOf(before, t.ident.serial), t))|
  }

  lemma AfterOneMore(devices: Devices, src: DeviceMapping, targets: seq<CopyTarget>, n: nat)
    requires n < |targets|
    ensures var before, t := DevicesAfter(devices, src, targets[..n]), targets[n];
      var entry := EntryOf(before, t.ident.serial);
      DevicesAfter(devices, src, targets[..n + 1]) == before[t.ident.serial := EntryAfter(entry, src, t)] &&
      CopiedCount(devices, src, targets[..n + 1]) ==
        CopiedCount(devices, src, targets[..n]) + |CopiedKeys(src, t.have, ChosenInstance(entry, t))|
  {
    assert targets[..n + 1][..n] == targets[..n];
  }

  lemma AllCopied(src: DeviceMapping, into: map<string, FieldMapping>, have: set<Word>, instance: string,
                  done: set<string>)
    requires done == src.fields.Keys
    ensures var chosen := CopiedFields(src, have, instance);
      Written(into, chosen, done) == into + chosen && |chosen.Keys * done| == |CopiedKeys(src, have, instance)|
    ensures |done| == |src.fields|
  {
    var chosen := CopiedFields(src, have, instance);
    AllKeys(into, chosen, done);
    assert chosen.Keys == CopiedKeys(src, have, instance);
  }

  /** One field's copy, if it is copied. */
  method CopyField(src: DeviceMapping, key: string, have: set<Word>,
                   instance: string) returns (copy: Option<FieldMapping>)
    requires key in src.fields
    ensures var chosen := CopiedFields(src, have, instance);
      copy == if key in chosen then Some(chosen[key]) else None
  {
    if Copies(src, key, have, instance) {
      copy := Some(CopiedField(src, key, instance));
    } else {
      copy := None;
    }
  }

  class Mapping {
    var devices: Devices

    constructor ()
      ensures devices == map[]
    {
      devices := map[];
    }

    /** Copy a device's field mappings onto every target, with each target's own instance in the paths. */
    method CopyToTargets(src: DeviceMapping, targets: seq<CopyTarget>) returns (copied: nat, skipped: nat)
      modifies this
      ensures devices == DevicesAfter(old(devices), src, targets)
      ensures copied == CopiedCount(old(devices), src, targets)
      ensures copied + skipped == |targets| * |src.fields|
    {
      copied, skipped := 0, 0;
      for n := 0 to |targets|
        invariant devices == DevicesAfter(old(devices), src, targets[..n])
        invariant copied == CopiedCount(old(devices), src, targets[..n])
        invariant copied + skipped == n * |src.fields|
      {
        AfterOneMore(old(devices), src, targets, n);
        var c, s := CopyToOne(src, targets[n]);
        copied, skipped := copied + c, skipped + s;
        assert (n + 1) * |src.fields| == n * |src.fields| + |src.fields|;
      }
      assert targets[..|targets|] == targets;
    }

    /** Copy a device's field mappings onto one target. */
    method CopyToOne(src: DeviceMapping, t: CopyTarget) returns (copied: nat, skipped: nat)
      modifies this
      ensures var entry := EntryOf(old(devices), t.ident.serial);
        devices == old(devices)[t.ident.serial := EntryAfter(entry, src, t)] &&
        copied == |CopiedKeys(src, t.have, ChosenInstance(entry, t))|
      ensures copied + skipped == |src.fields|
    {
      var entry := EntryOf(devices, t.ident.serial);
      var instance := ChosenInstance(entry, t);
      var fields;
      fields, copied, skipped := CopyFields(src, entry.fields, t.have, instance);
      devices := devices[t.ident.serial := DeviceMapping(t.ident.article, t.ident.firmware, t.ident.name, instance, fields)];
    }

    /** Copy the fields a target has, in any order. */
    static method CopyFields(src: DeviceMapping, into: map<string, FieldMapping>, have: set<Word>, instance: string)
        returns (fields: map<string, FieldMapping>, copied: nat, skipped: nat)
      ensures fields == into + CopiedFields(src, have, instance)
      ensures copied == |CopiedKeys(src, have, instance)|
      ensures copied + skipped == |src.fields|
    {
      fields, copied, skipped := into, 0, 0;
      ghost var chosen := CopiedFields(src, have, instance);
      var left := src.fields.Keys;
      NoKeysYet(into, chosen, left);
      while left != {}
        invariant left <= src.fields.Keys
        invariant fields == Written(into, chosen, src.fields.Keys - left)
        invariant copied == |chosen.Keys * (src.fields.Keys - left)| && copied + skipped == |src.fields.Keys - left|
        decreases |left|
      {
        var key :| key in left;
        NextKey(into, chosen, src.fields.Keys, left, key);
        left := left - {key};
        var copy := CopyField(src, key, have, instance);
        if copy.Some? {
          fields := fields[key := copy.value];
          copied := copied + 1;
        } else {
          skipped := skipped + 1;
        }
      }
      AllCopied(src, into, have, instance, src.fields.Keys - left);
    }
  }

  // ----- what a copy does

  /** Devices that are not targets are left alone; a target records who it is, and keeps a chosen instance. */
  lemma {:induction false} CopyTouchesTargets(devices: Devices, src: DeviceMapping, targets: seq<CopyTarget>,
          serial: string)
    ensures var after := DevicesAfter(devices, src, targets);
      (forall i :: 0 <= i < |targets| ==> targets[i].ident.serial != serial) ==>
        (serial in after <==> serial in devices) && (serial in devices ==> after[serial] == devices[serial])
    ensures var after := DevicesAfter(devices, src, targets);
      serial in devices && devices[serial].instance != "" ==>
        serial in after && after[serial].instance == devices[serial].instance
  {
    if targets != [] {
      CopyTouchesTargets(devices, src, targets[..|targets| - 1], serial);
    }
  }

  /** The source's path for a field, on a target with this instance: its own instance segment swapped, or where
      its path names none, the one recorded for the source. */
  function PathOnTarget(src: DeviceMapping, key: string, instance: string): string
    requires key in src.fields
  {
    var path := src.fields[key].path;
    Retarget(path, if InstanceOf(path).Some? then InstanceOf(path).value else src.instance, instance)
  }

  /** A source field is to be copied: its key is of a field the target has, and the path would be another. */
  predicate IsDue(src: DeviceMapping, t: CopyTarget, instance: string, key: string) {
    key in src.fields &&
    (match ParseFieldKey(key) case Some(id) => id in t.have case None => false) &&
    PathOnTarget(src, key, instance) != src.fields[key].path
  }

  /** A target's own instance, once it has one. */
  function InstanceFor(entry: DeviceMapping, t: CopyTarget): string {
    if entry.instance != "" then entry.instance else t.instance
  }

  /** After the copy a target's entry says who the target is, and has every field that is due, with the source's
      settings on the target's path; every other field is as it was. */
  lemma CopyIsDone(entry: DeviceMapping, src: DeviceMapping, t: CopyTarget)
    ensures var after, instance := EntryAfter(entry, src, t), InstanceFor(entry, t);
      after.article == t.ident.article && after.firmware == t.ident.firmware && after.name == t.ident.name &&
      after.instance == instance
    ensures var after, instance := EntryAfter(entry, src, t), InstanceFor(entry, t);
      forall key :: IsDue(src, t, instance, key) ==>
        key in after.fields && after.fields[key] == src.fields[key].(path := PathOnTarget(src, key, instance))
    ensures var after, instance := EntryAfter(entry, src, t), InstanceFor(entry, t);
      forall key :: !IsDue(src, t, instance, key) ==>
        (key in after.fields <==> key in entry.fields) && (key in entry.fields ==> after.fields[key] == entry.fields[key])
  {
    var instance := InstanceFor(entry, t);
    forall key
      ensures IsDue(src, t, instance, key) <==> key in CopiedFields(src, t.have, instance)
    {
      DueIsCopied(src, t, instance, key);
    }
  }

  lemma DueIsCopied(src: DeviceMapping, t: CopyTarget, instance: string, key: string)
    ensures IsDue(src, t, instance, key) <==> key in CopiedKeys(src, t.have, instance)
    ensures key in src.fields ==> PathOnTarget(src, key, instance) == CopiedPath(src, src.fields[key].path, instance)
  {
  }

  /** The target of step `n` gets as many copies as fields are due on it, with what the steps before left. */
  lemma CopiedAreDue(devices: Devices, src: DeviceMapping, targets: seq<CopyTarget>, n: nat)
    requires n < |targets|
    ensures var before, t := DevicesAfter(devices, src, targets[..n]), targets[n];
      var entry := if t.ident.serial in before then before[t.ident.serial] else NO_MAPPING;
      CopiedCount(devices, src, targets[..n + 1]) - CopiedCount(devices, src, targets[..n]) ==
        |set key | key in src.fields && IsDue(src, t, InstanceFor(entry, t), key)|
  {
    AfterOneMore(devices, src, targets, n);
    var before, t := DevicesAfter(devices, src, targets[..n]), targets[n];
    var instance := InstanceFor(EntryOf(before, t.ident.serial), t);
    forall key
      ensures IsDue(src, t, instance, key) <==> key in CopiedKeys(src, t.have, instance)
    {
      DueIsCopied(src, t, instance, key);
    }
    assert (set key | key in src.fields && IsDue(src, t, instance, key)) == CopiedKeys(src, t.have, instance);
  }

  /** Copied to targets with different serial numbers, each has what a copy to it alone makes of its entry. */
  lemma {:induction false} EachTargetIsCopied(devices: Devices, src: DeviceMapping, targets: seq<CopyTarget>, i: nat)
    requires i < |targets|
    requires forall j, k :: 0 <= j < k < |targets| ==> targets[j].ident.serial != targets[k].ident.serial
    ensures var after, serial := DevicesAfter(devices, src, targets), targets[i].ident.serial;
      serial in after && after[serial] == EntryAfter(EntryOf(devices, serial), src, targets[i])
  {
    var n := |targets| - 1;
    if i < n {
      EachTargetIsCopied(devices, src, targets[..n], i);
    } else {
      CopyTouchesTargets(devices, src, targets[..n], targets[n].ident.serial);
    }
  }

  /** A field in an entry after a copy is the one it had before, or a copy of the source's: of a field the
      target has, on the source's path retargeted to the target's instance, which is not the source's path. */
  lemma EntryFields(entry: DeviceMapping, src: DeviceMapping, t: CopyTarget, key: string)
    ensures var after := EntryAfter(entry, src, t);
      key in after.fields ==>
        (key in entry.fields && after.fields[key] == entry.fields[key]) ||
        (key in src.fields && ParseFieldKey(key).Some? && ParseFieldKey(key).value in t.have &&
         after.fields[key] == src.fields[key].(path := CopiedPath(src, src.fields[key].path, after.instance)) &&
         after.fields[key].path != src.fields[key].path &&
         CopiedTo(src.fields[key].path, after.fields[key].path, after.instance))
  {
    var after := EntryAfter(entry, src, t);
    if key in src.fields && Copies(src, key, t.have, after.instance) {
      var path := src.fields[key].path;
      if InstanceOf(path).Some? && InstanceOf(path).value != Split(path, '.')[0] && Free(after.instance, '.') {
        RetargetNamesInstance(path, after.instance);
      }
    }
  }

  /** A copied path names the target's instance, if the source path has one that is not its first segment, and
      the target's is one segment. */
  predicate CopiedTo(path: string, copied: string, instance: string) {
    InstanceOf(path).Some? && InstanceOf(path).value != Split(path, '.')[0] && Free(instance, '.') ==>
      InstanceOf(copied) == Some(instance)
  }

  /** Fields of a target that the source does not map, or that the target does not have, are left alone. */
  lemma EntryKeeps(entry: DeviceMapping, src: DeviceMapping, t: CopyTarget, key: string)
    requires key !in src.fields || ParseFieldKey(key).None? || ParseFieldKey(key).value !in t.have
    ensures key in EntryAfter(entry, src, t).fields <==> key in entry.fields
    ensures key in entry.fields ==> EntryAfter(entry, src, t).fields[key] == entry.fields[key]
  {
  }
}
