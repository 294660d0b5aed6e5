/** What a Signal K path means, and how device values are published to it and written from it. */
module SignalK {
  import opened Prelude
  import opened Text
  import opened Units

  // ----- values and JSON

  type I32 = n: int | -0x8000_0000 <= n < 0x8000_0000

  /** Option labels; an index into them fits a 32-bit integer. */
  type Labels = s: seq<string> | |s| <= 0x8000_0000

  datatype Clock = Clock(sec: I32, min: I32, hour: I32, days: I32)

  /** A field's value. A float that is not finite is `Float(None)`. */
  datatype Value =
    | Float(x: Option<real>)
    | Boolean(b: bool)
    | Time(t: Clock)
    | List(index: I32, options: Labels)
    | Eventable(index: I32, options: Labels)
    | Text(sid: nat, text: string)
    | Date(day: I32, mon: I32, year: I32)
    | DeviceRef(device: I32, ids: seq<nat>)
    | Invalid

  datatype Json =
    | Null
    | Bool(b: bool)
    | Int(i: int)
    | Real(r: real)
    | Str(s: string)
    | Composite

  predicate IsEnum(v: Value) {
    v.List? || v.Eventable?
  }

  /** The selected label; none for an index past the labels, or below 0. */
  function LabelOf(v: Value): Option<string> {
    if IsEnum(v) && 0 <= v.index < |v.options| then Some(v.options[v.index]) else None
  }

  /** The enum with another selection. */
  function WithIndex(v: Value, index: I32): Value {
    if IsEnum(v) then v.(index := index) else v
  }

  predicate SameText(a: string, b: string) {
    LowerCase(a) == LowerCase(b)
  }

  /** Every label is blank: the enum only says off or on. */
  predicate Unlabeled(options: Labels) {
    options != [] && forall i :: 0 <= i < |options| ==> Trim(options[i]) == ""
  }

  // ----- truth tables

  /** A truth table, its keys in order. */
  type Table = seq<(string, bool)>

  /** The value of the first key that is the label, whatever its case. */
  function MeaningOf(table: Table, word: string): Option<bool> {
    if table == [] then None
    else if SameText(table[0].0, word) then Some(table[0].1)
    else MeaningOf(table[1..], word)
  }

  /** Some key is the label, whatever its case, and has this value. */
  predicate Means(table: Table, word: string, want: bool) {
    exists i :: 0 <= i < |table| && SameText(table[i].0, word) && table[i].1 == want
  }

  predicate Covers(table: Table, word: string) {
    exists i :: 0 <= i < |table| && SameText(table[i].0, word)
  }

  /** No label has two meanings. */
  predicate Consistent(table: Table) {
    forall i, j :: 0 <= i < |table| && 0 <= j < |table| && SameText(table[i].0, table[j].0) ==> table[i].1 == table[j].1
  }

  /** The table with a key set, in its place. */
  function Insert(table: Table, key: string, value: bool): Table {
    if table == [] then [(key, value)]
    else if table[0].0 == key then [(key, value)] + table[1..]
    else if Before(key, table[0].0) then [(key, value)] + table
    else [table[0]] + Insert(table[1..], key, value)
  }

  /** What a label conventionally means. */
  function TruthOfLabel(word: string): Option<bool> {
    TruthOfWord(LowerCase(Trim(word)))
  }

  function TruthOfWord(l: string): Option<bool> {
    if l == "on" || l == "activated" || l == "active" || l == "enabled" || l == "yes" || l == "true" || l == "closed" then
      Some(true)
    else if l == "off" || l == "standby" || l == "disabled" || l == "inactive" || l == "no" || l == "false" || l == "open" then
      Some(false)
    else None
  }

  /** The conventional meanings of all labels, when all are known. */
  function Conventional(labels: seq<string>): Option<Table> {
    if labels == [] then Some([])
    else
      var n := |labels| - 1;
      match (Conventional(labels[..n]), TruthOfLabel(labels[n]))
      case (Some(t), Some(b)) => Some(Insert(t, labels[n], b))
      case _ => None
  }

  predicate Has(table: Table, want: bool) {
    exists i :: 0 <= i < |table| && table[i].1 == want
  }

  /** A complete table for an enum's labels, when each is known and both values occur. */
  function TruthDefaultSpec(labels: seq<string>): Option<Table> {
    match Conventional(labels)
    case None => None
    case Some(t) => if Has(t, true) && Has(t, false) then Some(t) else None
  }

  method TruthDefault(labels: seq<string>) returns (r: Option<Table>)
    ensures r == TruthDefaultSpec(labels)
  {
    var t: Table := [];
    for n := 0 to |labels|
      invariant Conventional(labels[..n]) == Some(t)
    {
      assert labels[..n + 1][..n] == labels[..n];
      match TruthOfLabel(labels[n])
      case None =>
        ConventionalStops(labels, n + 1);
        return None;
      case Some(b) => t := Insert(t, labels[n], b);
    }
    assert labels[..|labels|] == labels;
    var yes, no := false, false;
    for n := 0 to |t|
      invariant yes <==> Has(t[..n], true)
      invariant no <==> Has(t[..n], false)
    {
      assert t[..n + 1] == t[..n] + [t[n]];
      HasNext(t[..n], t[n]);
      if t[n].1 {
        yes := true;
      } else {
        no := true;
      }
    }
    assert t[..|t|] == t;
    r := if yes && no then Some(t) else None;
  }

  lemma HasNext(t: Table, e: (string, bool))
    ensures forall want :: Has(t + [e], want) <==> Has(t, want) || e.1 == want
  {
    forall want
      ensures Has(t + [e], want) <==> Has(t, want) || e.1 == want
    {
      var u := t + [e];
      assert u[|t|] == e;
      if i :| 0 <= i < |t| && t[i].1 == want {
        assert u[i] == t[i];
      }
    }
  }

  lemma {:induction false} ConventionalStops(labels: seq<string>, n: nat)
    requires n <= |labels| && Conventional(labels[..n]).None?
    ensures Conventional(labels).None?
    decreases |labels| - n
  {
    if n == |labels| {
      assert labels[..n] == labels;
    } else {
      assert labels[..n + 1][..n] == labels[..n];
      ConventionalStops(labels, n + 1);
    }
  }

  /** The user's table, completed from the conventional meanings of the labels it does not cover. */
  function Completed(table: Table, labels: seq<string>): Option<Table> {
    if labels == [] then Some(table)
    else
      var n := |labels| - 1;
      match Completed(table, labels[..n])
      case None => None
      case Some(t) =>
        if Covers(t, labels[n]) then Some(t)
        else
          match TruthOfLabel(labels[n])
          case None => None
          case Some(b) => Some(Insert(t, labels[n], b))
  }

  method Complete(table: Table, labels: seq<string>) returns (r: Option<Table>)
    ensures r == Completed(table, labels)
  {
    var t := table;
    for n := 0 to |labels|
      invariant Completed(table, labels[..n]) == Some(t)
    {
      assert labels[..n + 1][..n] == labels[..n];
      if !Covers(t, labels[n]) {
        match TruthOfLabel(labels[n])
        case None =>
          CompletedStops(table, labels, n + 1);
          return None;
        case Some(b) => t := Insert(t, labels[n], b);
      }
    }
    assert labels[..|labels|] == labels;
    r := Some(t);
  }

  lemma {:induction false} CompletedStops(table: Table, labels: seq<string>, n: nat)
    requires n <= |labels| && Completed(table, labels[..n]).None?
    ensures Completed(table, labels).None?
    decreases |labels| - n
  {
    if n == |labels| {
      assert labels[..n] == labels;
    } else {
      assert labels[..n + 1][..n] == labels[..n];
      CompletedStops(table, labels, n + 1);
    }
  }

  // ----- paths

  datatype PathError = NoPath | Spaces | Prefix | EmptySegment | BadSegment | TooShort

  predicate IsPathChar(c: char) {
    'a' <= c <= 'z' || 'A' <= c <= 'Z' || '0' <= c <= '9' || c == '-' || c == '_'
  }

  function Needed(first: string): nat {
    if first == "electrical" || first == "tanks" then 4
    else if first == "propulsion" || first == "sails" then 3
    else 2
  }

  /** What is wrong with a path, if anything. */
  function CheckPath(path: string): Option<PathError> {
    var p := Trim(path);
    if p == "" then Some(NoPath)
    else if exists i :: 0 <= i < |p| && IsSpace(p[i]) then Some(Spaces)
    else
      var seg := Split(p, '.');
      if "" in seg then Some(if p[|p| - 1] == '.' then Prefix else EmptySegment)
      else if exists i :: 0 <= i < |seg| && !AllPathChars(seg[i]) then Some(BadSegment)
      else if |seg| < Needed(seg[0]) then Some(TooShort)
      else None
  }

  predicate AllPathChars(s: string) {
    forall i :: 0 <= i < |s| ==> IsPathChar(s[i])
  }

  /** A path's last segment. */
  function LeafOf(path: string): string {
    var seg := Split(path, '.');
    seg[|seg| - 1]
  }

  /** The unit the specification gives a leaf. */
  function LeafUnit(leaf: string): Option<string> {
    if leaf == "stateOfCharge" || leaf == "stateOfHealth" then Some("ratio")
    else if leaf == "timeRemaining" then Some("s")
    else if leaf == "dischargeSinceFull" then Some("C")
    else if leaf == "temperature" then Some("K")
    else if leaf == "voltage" || leaf == "voltageSense" || leaf == "panelVoltage" || leaf == "lineNeutralVoltage" ||
      leaf == "lineLineVoltage" then Some("V")
    else if leaf == "current" || leaf == "currentLimit" || leaf == "panelCurrent" || leaf == "loadCurrent" then Some("A")
    else if leaf == "power" || leaf == "realPower" || leaf == "panelPower" then Some("W")
    else if leaf == "frequency" || leaf == "revolutions" then Some("Hz")
    else if leaf == "yieldToday" || leaf == "yieldTotal" then Some("J")
    else None
  }

  predicate LeafIsBoolean(path: string) {
    var leaf := LeafOf(path);
    leaf == "enabled" || (leaf == "state" && "electrical.switches." <= path)
  }

  /** How many segments a branch's node has; 0 for a branch without nodes. */
  function NodeDepth(first: string): nat {
    if first == "electrical" || first == "tanks" then 3
    else if first == "propulsion" || first == "sails" then 2
    else 0
  }

  /** The sub-tree a path's device is described at. */
  function NodeOf(path: string): Option<string> {
    var seg := Split(path, '.');
    var depth := NodeDepth(seg[0]);
    if depth == 0 || |seg| <= depth then None else Some(Join(seg[..depth], '.'))
  }

  /** The instance a path names: the last segment of its node. */
  function InstanceOf(path: string): Option<string> {
    match NodeOf(path)
    case None => None
    case Some(node) => Some(LeafOf(node))
  }

  /** The instances some paths name, in order. */
  function Instances(paths: seq<string>): seq<string> {
    if paths == [] then []
    else
      var rest := Instances(paths[..|paths| - 1]);
      match InstanceOf(paths[|paths| - 1])
      case Some(i) => rest + [i]
      case None => rest
  }

  /** The instance named most often; of several, the current one, else the first in order. */
  predicate IsMain(all: seq<string>, current: string, i: string) {
    var uses := multiset(all);
    i in all && (forall q :: q in all ==> uses[q] <= uses[i]) &&
    if current in all && uses[current] == uses[i] then i == current
    else forall q :: q in all && uses[q] == uses[i] ==> q == i || Before(i, q)
  }

  /** How often each instance is named. */
  method CountInstances(paths: seq<string>) returns (counts: map<string, nat>)
    ensures forall i :: i in counts <==> i in Instances(paths)
    ensures forall i :: i in counts ==> counts[i] == multiset(Instances(paths))[i]
  {
    counts := map[];
    for n := 0 to |paths|
      invariant forall i :: i in counts <==> i in Instances(paths[..n])
      invariant forall i :: i in counts ==> counts[i] == multiset(Instances(paths[..n]))[i]
    {
      assert paths[..n + 1][..n] == paths[..n];
      match InstanceOf(paths[n])
      case None =>
      case Some(i) => counts := counts[i := (if i in counts then counts[i] else 0) + 1];
    }
    assert paths[..|paths|] == paths;
  }

  /** The largest count. */
  method TopCount(counts: map<string, nat>) returns (top: nat)
    requires counts != map[]
    ensures (exists i :: i in counts && counts[i] == top) && forall i :: i in counts ==> counts[i] <= top
  {
    var first :| first in counts;
    top := counts[first];
    var left := counts.Keys - {first};
    while left != {}
      invariant left <= counts.Keys && exists i :: i in counts && counts[i] == top
      invariant forall i :: i in counts && i !in left ==> counts[i] <= top
      decreases |left|
    {
      var i :| i in left;
      left := left - {i};
      if counts[i] > top {
        top := counts[i];
      }
    }
  }

  /** The instance a device's paths use most. */
  method MainInstance(paths: seq<string>, current: string) returns (r: Option<string>)
    ensures r.None? <==> Instances(paths) == []
    ensures r.Some? ==> IsMain(Instances(paths), current, r.value)
  {
    var counts := CountInstances(paths);
    assert Instances(paths) != [] ==> Instances(paths)[0] in counts;
    if counts == map[] {
      return None;
    }
    var top := TopCount(counts);
    if current in counts && counts[current] == top {
      return Some(current);
    }
    var tops := set i | i in counts && counts[i] == top;
    ghost var one :| one in counts && counts[one] == top;
    assert one in tops;
    ghost var least := Least(tops);
    var i :| i in tops && forall q :: q in tops ==> q == i || Before(i, q);
    r := Some(i);
  }

  // ----- plans

  datatype NotifyState = Alert | Warn | Alarm | Emergency

  datatype FieldMapping = FieldMapping(path: string, invert: bool, truth: Table, notify: map<string, NotifyState>,
                                       put: bool, allowOff: bool)

  /** How a field is published; `warning` is a unit that cannot be converted. */
  datatype Plan = Plan(conv: Conversion, unit: Option<string>, truth: Table, invert: bool,
                       notify: map<string, NotifyState>, warning: Option<string>)

  datatype Refusal =
    | Path(reason: PathError)
    | NoTruth(labels: Labels)
    | WrongUnit(device: string, leaf: string)

  predicate WantsTruth(path: string, options: Labels) {
    LeafIsBoolean(path) && options != [] && !Unlabeled(options)
  }

  /** The truth table a field is published with; none when a label's meaning is missing. */
  function PlanTruth(path: string, options: Labels, user: Table): Option<Table> {
    if !WantsTruth(path, options) then Some(user)
    else if user == [] then TruthDefaultSpec(options)
    else Completed(user, options)
  }

  /** The conversion, the published unit and the warning; none when the leaf wants another unit. */
  function PlanUnit(leaf: Option<string>, dev: string): Option<(Conversion, Option<string>, Option<string>)> {
    match (leaf, ToSiOf(dev))
    case (Some(l), si) =>
      if dev == "" then Some((IDENTITY, Some(l), None))
      else if si.Some? && si.value.unit == l then Some((si.value.conv, Some(l), None))
      else None
    case (None, Some(si)) => Some((si.conv, Some(si.unit), None))
    case (None, None) => Some((IDENTITY, None, if dev == "" then None else Some(dev)))
  }

  function PlanSpec(path: string, unit: string, options: Labels, entry: FieldMapping): Result<Plan, Refusal> {
    var dev, leaf := Normalize(unit), LeafUnit(LeafOf(path));
    match CheckPath(path)
    case Some(e) => Err(Path(e))
    case None =>
      match PlanTruth(path, options, entry.truth)
      case None => Err(NoTruth(options))
      case Some(truth) =>
        if LeafIsBoolean(path) && ToSiOf(dev).Some? then Err(WrongUnit(dev, "boolean"))
        else
          match PlanUnit(leaf, dev)
          case None => Err(WrongUnit(dev, leaf.GetOr("")))
          case Some((conv, si, warning)) =>
            Ok(Plan(conv, if LeafIsBoolean(path) || truth != [] then None else si, truth, entry.invert, entry.notify, warning))
  }

  /** Decide how a field is published to its path. */
  method MakePlan(path: string, unit: string, options: Labels, entry: FieldMapping) returns (r: Result<Plan, Refusal>)
    ensures r == PlanSpec(path, unit, options, entry)
  {
    var bad := CheckPath(path);
    if bad.Some? {
      return Err(Path(bad.value));
    }
    var dev, leaf := Normalize(unit), LeafUnit(LeafOf(path));
    var truth := entry.truth;
    if WantsTruth(path, options) {
      var made;
      if truth == [] {
        made := TruthDefault(options);
      } else {
        made := Complete(truth, options);
      }
      if made.None? {
        return Err(NoTruth(options));
      }
      truth := made.value;
    }
    if LeafIsBoolean(path) && ToSiOf(dev).Some? {
      return Err(WrongUnit(dev, "boolean"));
    }
    match PlanUnit(leaf, dev)
    case None => r := Err(WrongUnit(dev, leaf.GetOr("")));
    case Some((conv, si, warning)) =>
      r := Ok(Plan(conv, if LeafIsBoolean(path) || truth != [] then None else si, truth, entry.invert, entry.notify, warning));
  }

  // ----- publishing and writing

  function Seconds(t: Clock): real {
    t.days as real * 86400.0 + t.hour as real * 3600.0 + t.min as real * 60.0 + t.sec as real
  }

  predicate Xor(a: bool, b: bool) {
    a != b
  }

  /** The JSON a value is published as; none when there is nothing to publish. */
  function Encode(v: Value, conv: Conversion, invert: bool, truth: Table): Option<Json> {
    match v
    case Float(Some(x)) => Some(Real(conv.Apply(x)))
    case Boolean(b) => Some(Bool(Xor(b, invert)))
    case Time(t) => if t.sec >= 0 then Some(Real(conv.Apply(Seconds(t)))) else None
    case List(_, _) => EncodeEnum(v, invert, truth)
    case Eventable(_, _) => EncodeEnum(v, invert, truth)
    case Text(_, text) => if text != "" then Some(Str(text)) else None
    case _ => None
  }

  function EncodeEnum(v: Value, invert: bool, truth: Table): Option<Json>
    requires IsEnum(v)
  {
    if Unlabeled(v.options) then
      if 0 <= v.index < |v.options| then Some(Bool(Xor(v.index != 0, invert))) else None
    else
      match LabelOf(v)
      case None => None
      case Some(word) =>
        if truth == [] then Some(Str(LowerCase(word)))
        else
          match MeaningOf(truth, word)
          case None => None
          case Some(b) => Some(Bool(Xor(b, invert)))
  }

  datatype WriteError = NotANumber | NotABoolean | NoLabelMeans(want: bool) | NotALabel | NotAnIndex | NotAString | NotWritable

  /** The boolean a word stands for. */
  function BoolOfWord(w: string): Option<bool> {
    if w == "true" || w == "on" || w == "1" || w == "yes" then Some(true)
    else if w == "false" || w == "off" || w == "0" || w == "no" then Some(false)
    else None
  }

  /** A JSON boolean, or what people send as one. */
  function AsBool(j: Json): Option<bool> {
    match j
    case Bool(b) => Some(b)
    case Int(i) => Some(i != 0)
    case Real(r) => Some(r != 0.0)
    case Str(s) => BoolOfWord(LowerCase(Trim(s)))
    case _ => None
  }

  /** The first label that some key of the table gives this meaning. */
  function FirstMeaning(labels: seq<string>, truth: Table, want: bool): (r: Option<nat>)
    ensures r.Some? ==> r.value < |labels| && Means(truth, labels[r.value], want)
    ensures r.Some? ==> forall i :: 0 <= i < r.value ==> !Means(truth, labels[i], want)
    ensures r.None? ==> forall i :: 0 <= i < |labels| ==> !Means(truth, labels[i], want)
  {
    if labels == [] then None
    else if Means(truth, labels[0], want) then Some(0)
    else
      match FirstMeaning(labels[1..], truth, want)
      case None => None
      case Some(i) => Some(i + 1)
  }

  /** The first label that is this text, whatever its case. */
  function FirstLabel(labels: seq<string>, text: string): (r: Option<nat>)
    ensures r.Some? ==> r.value < |labels| && SameText(labels[r.value], text)
    ensures r.Some? ==> forall i :: 0 <= i < r.value ==> !SameText(labels[i], text)
    ensures r.None? ==> forall i :: 0 <= i < |labels| ==> !SameText(labels[i], text)
  {
    if labels == [] then None
    else if SameText(labels[0], text) then Some(0)
    else
      match FirstLabel(labels[1..], text)
      case None => None
      case Some(i) => Some(i + 1)
  }

  function AtLeast1(n: nat): nat {
    if n > 0 then n else 1
  }

  /** The value a JSON value writes to a field that holds `template`. */
  function Decode(j: Json, template: Value, conv: Conversion, invert: bool, truth: Table): Result<Value, WriteError>
    requires conv.scale != 0.0
  {
    match template
    case Float(_) =>
      (match j
       case Int(i) => Ok(Float(Some(conv.Unapply(i as real))))
       case Real(r) => Ok(Float(Some(conv.Unapply(r))))
       case _ => Err(NotANumber))
    case Boolean(_) =>
      (match AsBool(j)
       case Some(b) => Ok(Boolean(Xor(b, invert)))
       case None => Err(NotABoolean))
    case List(_, _) => DecodeEnum(j, template, invert, truth)
    case Eventable(_, _) => DecodeEnum(j, template, invert, truth)
    case Text(sid, _) =>
      (match j
       case Str(s) => Ok(Text(sid, s))
       case _ => Err(NotAString))
    case _ => Err(NotWritable)
  }

  function DecodeEnum(j: Json, template: Value, invert: bool, truth: Table): Result<Value, WriteError>
    requires IsEnum(template)
  {
    var labels := template.options;
    if Unlabeled(labels) then
      match AsBool(j)
      case Some(b) => Ok(WithIndex(template, if Xor(b, invert) then 1 else 0))
      case None => Err(NotABoolean)
    else if truth != [] then
      match AsBool(j)
      case None => Err(NotABoolean)
      case Some(b) =>
        match FirstMeaning(labels, truth, Xor(b, invert))
        case None => Err(NoLabelMeans(Xor(b, invert)))
        case Some(i) => Ok(WithIndex(template, i))
    else
      match j
      case Str(s) =>
        (match FirstLabel(labels, Trim(s))
         case None => Err(NotALabel)
         case Some(i) => Ok(WithIndex(template, i)))
      case Int(i) => if 0 <= i < AtLeast1(|labels|) then Ok(WithIndex(template, i)) else Err(NotAnIndex)
      case Real(_) => Err(NotAnIndex)
      case _ => Err(NotALabel)
  }
}
