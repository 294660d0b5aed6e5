/** Publishing and writing undo each other, and a plan decides up front that they can. */
module SignalKRoundTrip {
  import opened Prelude
  import opened Text
  import opened Units
  import opened SignalK

  // ----- case and space

  lemma SpaceHasNoCase(c: char)
    ensures IsSpace(LowerChar(c)) <==> IsSpace(c)
    ensures LowerChar(LowerChar(c)) == LowerChar(c)
  {
  }

  lemma {:induction false} TrimStartLower(s: string)
    ensures TrimStart(LowerCase(s)) == LowerCase(TrimStart(s))
  {
    if s != "" {
      SpaceHasNoCase(s[0]);
      assert LowerCase(s)[1..] == LowerCase(s[1..]);
      TrimStartLower(s[1..]);
    }
  }

  lemma {:induction false} TrimEndLower(s: string)
    ensures TrimEnd(LowerCase(s)) == LowerCase(TrimEnd(s))
  {
    if s != "" {
      SpaceHasNoCase(s[|s| - 1]);
      assert LowerCase(s)[..|s| - 1] == LowerCase(s[..|s| - 1]);
      TrimEndLower(s[..|s| - 1]);
    }
  }

  lemma TrimLower(s: string)
    ensures Trim(LowerCase(s)) == LowerCase(Trim(s))
  {
    TrimEndLower(s);
    TrimStartLower(TrimEnd(s));
  }

  lemma LowerTwice(s: string)
    ensures LowerCase(LowerCase(s)) == LowerCase(s)
  {
  }

  /** A convention does not depend on case. */
  lemma SameMeaning(a: string, b: string)
    requires SameText(a, b)
    ensures TruthOfLabel(a) == TruthOfLabel(b)
  {
    TrimLower(a);
    TrimLower(b);
  }

  // ----- tables

  lemma {:induction false} MeaningFound(table: Table, w: string)
    ensures MeaningOf(table, w).Some? <==> Covers(table, w)
    ensures MeaningOf(table, w).Some? ==> Means(table, w, MeaningOf(table, w).value)
  {
    if table != [] {
      if SameText(table[0].0, w) {
        assert table[0] == table[0];
      } else {
        MeaningFound(table[1..], w);
        if i :| 0 <= i < |table| && SameText(table[i].0, w) {
          assert table[1..][i - 1] == table[i];
        }
        if MeaningOf(table, w).Some? {
          var b := MeaningOf(table, w).value;
          var i :| 0 <= i < |table[1..]| && SameText(table[1..][i].0, w) && table[1..][i].1 == b;
          assert table[i + 1] == table[1..][i];
        }
      }
    }
  }

  lemma {:induction false} MeaningIgnoresCase(table: Table, a: string, b: string)
    requires SameText(a, b)
    ensures MeaningOf(table, a) == MeaningOf(table, b)
  {
    if table != [] {
      MeaningIgnoresCase(table[1..], a, b);
    }
  }

  lemma ConsistentMeaning(table: Table, w: string, b: bool)
    requires Consistent(table) && Means(table, w, b)
    ensures MeaningOf(table, w) == Some(b)
  {
  }

  /** A table that says one thing of a text and publishes another would write what it does not mean. Safe:
      whatever some key publishes, every key with that value publishes. */
  predicate Safe(table: Table) {
    forall i, j :: 0 <= i < |table| && 0 <= j < |table| && MeaningOf(table, table[i].0) == Some(table[j].1) ==>
      MeaningOf(table, table[j].0) == Some(table[j].1)
  }

  lemma ConsistentIsSafe(table: Table)
    requires Consistent(table)
    ensures Safe(table)
  {
    forall j | 0 <= j < |table|
      ensures MeaningOf(table, table[j].0) == Some(table[j].1)
    {
      assert Means(table, table[j].0, table[j].1);
      ConsistentMeaning(table, table[j].0, table[j].1);
    }
  }

  // ----- publish, then PUT

  /** Writing what is published succeeds, and publishes the same again. */
  predicate RoundTrips(v: Value, conv: Conversion, invert: bool, truth: Table)
    requires conv.scale != 0.0 && Encode(v, conv, invert, truth).Some?
  {
    var j := Encode(v, conv, invert, truth).value;
    var w := Decode(j, v, conv, invert, truth);
    w.Ok? && Encode(w.value, conv, invert, truth) == Some(j)
  }

  /** Values other than enums: numbers, booleans and text come back; a time is published but never written. */
  lemma PlainRoundTrip(v: Value, conv: Conversion, invert: bool, truth: Table)
    requires conv.scale != 0.0 && Encode(v, conv, invert, truth).Some? && !IsEnum(v)
    ensures RoundTrips(v, conv, invert, truth) <==> !v.Time?
  {
    if v.Float? {
      UnapplyUndoes(conv, v.x.value);
    }
  }

  /** An enum without labels comes back as off or on. */
  lemma UnlabeledRoundTrip(v: Value, conv: Conversion, invert: bool, truth: Table)
    requires conv.scale != 0.0 && Encode(v, conv, invert, truth).Some? && IsEnum(v) && Unlabeled(v.options)
    ensures RoundTrips(v, conv, invert, truth)
  {
  }

  /** An enum published by label comes back exactly when the label has no space at its ends: the incoming
      text is trimmed, the labels are not. */
  lemma LabelRoundTrip(v: Value, conv: Conversion, invert: bool)
    requires conv.scale != 0.0 && IsEnum(v) && !Unlabeled(v.options) && LabelOf(v).Some?
    ensures RoundTrips(v, conv, invert, []) <==> Trim(LabelOf(v).value) == LabelOf(v).value
  {
    var word := LabelOf(v).value;
    var s := LowerCase(word);
    TrimLower(word);
    LowerTwice(word);
    var found := FirstLabel(v.options, Trim(s));
    if Trim(word) == word {
      assert SameText(v.options[v.index], Trim(s));
      assert found.Some? && found.value <= v.index;
    } else if found.Some? {
      TrimmedDiffers(word, v.options[found.value]);
    }
  }

  /** A label that is the text of another without its spaces is published differently. */
  lemma TrimmedDiffers(word: string, other: string)
    requires Trim(word) != word && SameText(other, LowerCase(Trim(word)))
    ensures LowerCase(other) != LowerCase(word)
  {
    TrimShortens(word);
    LowerTwice(Trim(word));
    assert |other| == |Trim(word)|;
  }

  predicate UsesTable(v: Value, truth: Table) {
    IsEnum(v) && !Unlabeled(v.options) && truth != []
  }

  /** What is published through a table is what the table says of the label. */
  lemma TablePublishes(v: Value, conv: Conversion, invert: bool, truth: Table)
    requires UsesTable(v, truth)
    ensures Encode(v, conv, invert, truth) ==
      if 0 <= v.index < |v.options| && MeaningOf(truth, v.options[v.index]).Some?
      then Some(Bool(Xor(MeaningOf(truth, v.options[v.index]).value, invert)))
      else None
  {
  }

  /** What is written through a table is the first label with the meaning asked for. */
  lemma TableWrites(b: bool, template: Value, conv: Conversion, invert: bool, truth: Table)
    requires conv.scale != 0.0 && UsesTable(template, truth)
    ensures Decode(Bool(b), template, conv, invert, truth) ==
      match FirstMeaning(template.options, truth, Xor(b, invert))
      case None => Err(NoLabelMeans(Xor(b, invert)))
      case Some(i) => Ok(WithIndex(template, i))
  {
  }

  lemma SafeMeaning(truth: Table, word: string, other: string, b: bool)
    requires Safe(truth) && MeaningOf(truth, word) == Some(b) && Means(truth, other, b)
    ensures MeaningOf(truth, other) == Some(b)
  {
    MeaningFound(truth, word);
    var i :| 0 <= i < |truth| && SameText(truth[i].0, word) && truth[i].1 == b;
    MeaningIgnoresCase(truth, truth[i].0, word);
    var j :| 0 <= j < |truth| && SameText(truth[j].0, other) && truth[j].1 == b;
    MeaningIgnoresCase(truth, truth[j].0, other);
  }

  /** An enum published through a safe table comes back. */
  lemma TableRoundTrip(v: Value, conv: Conversion, invert: bool, truth: Table)
    requires conv.scale != 0.0 && UsesTable(v, truth) && Encode(v, conv, invert, truth).Some?
    requires Safe(truth)
    ensures RoundTrips(v, conv, invert, truth)
  {
    TablePublishes(v, conv, invert, truth);
    var word := v.options[v.index];
    var b := MeaningOf(truth, word).value;
    MeaningFound(truth, word);
    TableWrites(Xor(b, invert), v, conv, invert, truth);
    var found := FirstMeaning(v.options, truth, b);
    assert Means(truth, v.options[v.index], b);
    SafeMeaning(truth, word, v.options[found.value], b);
    TablePublishes(WithIndex(v, found.value), conv, invert, truth);
  }

  /** Two labels and one more that is not blank. */
  function Example(a: string, b: string): (options: Labels)
    ensures !Unlabeled(options) && |options| == 3 && options[0] == a && options[1] == b
  {
    var options := [a, b, "x"];
    assert options[2] == "x" && Trim("x") == "x";
    options
  }

  /** A table that is not safe fails for some labels. */
  lemma UnsafeFails(truth: Table, conv: Conversion, invert: bool) returns (v: Value)
    requires conv.scale != 0.0 && truth != [] && !Safe(truth)
    ensures IsEnum(v) && !Unlabeled(v.options) && Encode(v, conv, invert, truth).Some?
    ensures !RoundTrips(v, conv, invert, truth)
  {
    var i, j :| 0 <= i < |truth| && 0 <= j < |truth| && MeaningOf(truth, truth[i].0) == Some(truth[j].1) &&
      MeaningOf(truth, truth[j].0) != Some(truth[j].1);
    var options := Example(truth[j].0, truth[i].0);
    v := List(1, options);
    assert Means(truth, options[0], truth[j].1);
    assert FirstMeaning(options, truth, truth[j].1) == Some(0);
  }

  /** Every enum published through a table comes back, whatever its labels, exactly when the table is safe. */
  lemma TableRoundTripIff(truth: Table, conv: Conversion, invert: bool)
    requires conv.scale != 0.0 && truth != []
    ensures Safe(truth) <==>
      forall v | IsEnum(v) && !Unlabeled(v.options) && Encode(v, conv, invert, truth).Some? :: RoundTrips(v, conv, invert, truth)
  {
    if Safe(truth) {
      forall v | IsEnum(v) && !Unlabeled(v.options) && Encode(v, conv, invert, truth).Some?
        ensures RoundTrips(v, conv, invert, truth)
      {
        TableRoundTrip(v, conv, invert, truth);
      }
    } else {
      var v := UnsafeFails(truth, conv, invert);
    }
  }

  // ----- PUT a boolean

  /** The PUT succeeds and the value written publishes the boolean sent. */
  predicate Honoured(j: Json, template: Value, conv: Conversion, invert: bool, truth: Table)
    requires conv.scale != 0.0
  {
    var w := Decode(j, template, conv, invert, truth);
    w.Ok? && AsBool(j).Some? && Encode(w.value, conv, invert, truth) == Some(Bool(AsBool(j).value))
  }

  /** A boolean PUT to a boolean, or to an enum without labels that has the option asked for. */
  lemma PlainPut(j: Json, template: Value, conv: Conversion, invert: bool, truth: Table)
    requires conv.scale != 0.0 && Decode(j, template, conv, invert, truth).Ok?
    requires template.Boolean? || (IsEnum(template) && Unlabeled(template.options))
    ensures Honoured(j, template, conv, invert, truth) <==>
      (template.Boolean? || |template.options| >= 2 || AsBool(j) == Some(invert))
  {
  }

  /** A PUT through a table is one of the boolean it stands for. */
  lemma TablePutsBoolean(j: Json, template: Value, conv: Conversion, invert: bool, truth: Table)
    requires conv.scale != 0.0 && UsesTable(template, truth)
    ensures if AsBool(j).Some?
      then Decode(j, template, conv, invert, truth) == Decode(Bool(AsBool(j).value), template, conv, invert, truth)
      else Decode(j, template, conv, invert, truth) == Err(NotABoolean)
  {
  }

  /** A boolean PUT through a table without contradictions, once it succeeds, publishes what was sent. */
  lemma TablePut(j: Json, template: Value, conv: Conversion, invert: bool, truth: Table)
    requires conv.scale != 0.0 && Decode(j, template, conv, invert, truth).Ok?
    requires IsEnum(template) && !Unlabeled(template.options) && truth != [] && Consistent(truth)
    ensures Honoured(j, template, conv, invert, truth)
  {
    TablePutsBoolean(j, template, conv, invert, truth);
    var b := AsBool(j).value;
    TableWrites(b, template, conv, invert, truth);
    var i := FirstMeaning(template.options, truth, Xor(b, invert)).value;
    ConsistentMeaning(truth, template.options[i], Xor(b, invert));
    TablePublishes(WithIndex(template, i), conv, invert, truth);
  }

  lemma ContradictionMisleads(truth: Table, conv: Conversion, invert: bool) returns (j: Json, template: Value)
    requires conv.scale != 0.0 && !Consistent(truth)
    ensures IsEnum(template) && !Unlabeled(template.options) && Decode(j, template, conv, invert, truth).Ok?
    ensures !Honoured(j, template, conv, invert, truth)
  {
    var a, b :| 0 <= a < |truth| && 0 <= b < |truth| && SameText(truth[a].0, truth[b].0) && truth[a].1 != truth[b].1;
    MeaningIgnoresCase(truth, truth[a].0, truth[b].0);
    var k := if MeaningOf(truth, truth[a].0) == Some(truth[a].1) then b else a;
    var options := Example(truth[k].0, truth[k].0);
    template := List(0, options);
    j := Bool(Xor(truth[k].1, invert));
    assert Means(truth, options[0], truth[k].1);
    assert FirstMeaning(options, truth, truth[k].1) == Some(0);
  }

  /** Every boolean PUT through a table that succeeds publishes what was sent, whatever the labels, exactly
      when the table has no contradictions. */
  lemma TablePutIff(truth: Table, conv: Conversion, invert: bool)
    requires conv.scale != 0.0 && truth != []
    ensures Consistent(truth) <==>
      forall j, template | IsEnum(template) && !Unlabeled(template.options) && Decode(j, template, conv, invert, truth).Ok? ::
        Honoured(j, template, conv, invert, truth)
  {
    if Consistent(truth) {
      forall j, template | IsEnum(template) && !Unlabeled(template.options) && Decode(j, template, conv, invert, truth).Ok?
        ensures Honoured(j, template, conv, invert, truth)
      {
        TablePut(j, template, conv, invert, truth);
      }
    } else {
      var j, template := ContradictionMisleads(truth, conv, invert);
    }
  }

  // ----- plans

  predicate Ordered(table: Table) {
    forall i, j :: 0 <= i < j < |table| ==> Before(table[i].0, table[j].0)
  }

  lemma HeadComesFirst(table: Table, key: string)
    requires table != [] && Ordered(table)
    ensures forall e :: e in table[1..] ==>
      Before(table[0].0, e.0) && e.0 != table[0].0 && (Before(key, table[0].0) ==> Before(key, e.0) && e.0 != key)
  {
    forall e | e in table[1..]
      ensures Before(table[0].0, e.0) && e.0 != table[0].0
      ensures Before(key, table[0].0) ==> Before(key, e.0) && e.0 != key
    {
      var i :| 0 <= i < |table[1..]| && table[1..][i] == e;
      assert Before(table[0].0, table[i + 1].0);
      OneComesFirst(table[0].0, e.0);
      if Before(key, table[0].0) {
        ComesFirstOfThree(key, table[0].0, e.0);
        OneComesFirst(key, e.0);
      }
    }
  }

  /** Setting a key keeps the keys in order, each once, and changes no other. */
  lemma {:induction false} InsertKeepsOrder(table: Table, key: string, value: bool)
    requires Ordered(table)
    ensures Ordered(Insert(table, key, value))
    ensures forall e :: e in Insert(table, key, value) <==> e == (key, value) || (e in table && e.0 != key)
  {
    if table != [] {
      var head, rest := table[0], table[1..];
      assert table == [head] + rest;
      OneComesFirst(head.0, key);
      InsertKeepsOrder(rest, key, value);
      HeadComesFirst(table, key);
      if !Before(key, head.0) && head.0 != key {
        var u := Insert(rest, key, value);
        forall i | 0 <= i < |u|
          ensures Before(head.0, u[i].0)
        {
          assert u[i] in u;
        }
      }
    }
  }

  lemma {:induction false} InsertHas(table: Table, key: string, value: bool)
    requires forall e :: e in table && e.0 == key ==> e.1 == value
    ensures forall e :: e in Insert(table, key, value) <==> e in table || e == (key, value)
  {
    if table != [] {
      assert table == [table[0]] + table[1..];
      InsertHas(table[1..], key, value);
    }
  }

  lemma CoversEntry(table: Table, w: string)
    ensures Covers(table, w) <==> exists e :: e in table && SameText(e.0, w)
  {
  }

  predicate Known(table: Table) {
    forall e :: e in table ==> TruthOfLabel(e.0) == Some(e.1)
  }

  lemma KnownIsConsistent(table: Table)
    requires Known(table)
    ensures Consistent(table)
  {
    forall i, j | 0 <= i < |table| && 0 <= j < |table| && SameText(table[i].0, table[j].0)
      ensures table[i].1 == table[j].1
    {
      assert table[i] in table && table[j] in table;
      SameMeaning(table[i].0, table[j].0);
    }
  }

  /** The conventional table lists exactly the labels, each with what it means. */
  lemma {:induction false} ConventionalLists(labels: seq<string>)
    ensures Conventional(labels).Some? <==> forall i :: 0 <= i < |labels| ==> TruthOfLabel(labels[i]).Some?
    ensures Conventional(labels).Some? ==>
      Known(Conventional(labels).value) && forall w :: (exists e :: e in Conventional(labels).value && e.0 == w) <==> w in labels
  {
    if labels != [] {
      var n := |labels| - 1;
      ConventionalLists(labels[..n]);
      assert labels == labels[..n] + [labels[n]];
      match (Conventional(labels[..n]), TruthOfLabel(labels[n]))
      case (Some(t), Some(b)) =>
        InsertHas(t, labels[n], b);
        forall w
          ensures (exists e :: e in Insert(t, labels[n], b) && e.0 == w) <==> w in labels
        {
          if w == labels[n] {
            assert (w, b) in Insert(t, labels[n], b);
          }
        }
      case _ =>
    }
  }

  /** A completed table keeps every entry the user made, and covers every label. */
  lemma {:induction false} CompletedCovers(table: Table, labels: seq<string>)
    requires Completed(table, labels).Some?
    ensures forall e :: e in table ==> e in Completed(table, labels).value
    ensures forall e :: e in Completed(table, labels).value ==> e in table || TruthOfLabel(e.0) == Some(e.1)
    ensures forall w :: w in labels ==> Covers(Completed(table, labels).value, w)
    ensures Consistent(table) ==> Consistent(Completed(table, labels).value)
  {
    if labels != [] {
      var n := |labels| - 1;
      CompletedCovers(table, labels[..n]);
      assert labels == labels[..n] + [labels[n]];
      var t := Completed(table, labels[..n]).value;
      if !Covers(t, labels[n]) {
        CoversEntry(t, labels[n]);
        var b := TruthOfLabel(labels[n]).value;
        InsertHas(t, labels[n], b);
        InsertCovers(t, labels[n], b);
        if Consistent(table) {
          InsertConsistent(t, labels[n], b);
        }
      }
    }
  }

  lemma InsertCovers(t: Table, key: string, b: bool)
    requires forall e :: e in t && e.0 == key ==> e.1 == b
    ensures forall w :: Covers(t, w) || w == key ==> Covers(Insert(t, key, b), w)
  {
    var u := Insert(t, key, b);
    InsertHas(t, key, b);
    forall w | Covers(t, w) || w == key
      ensures Covers(u, w)
    {
      CoversEntry(t, w);
      CoversEntry(u, w);
      if w == key {
        assert (key, b) in u;
      } else {
        var e :| e in t && SameText(e.0, w);
        assert e in u;
      }
    }
  }

  lemma InsertConsistent(t: Table, key: string, b: bool)
    requires Consistent(t) && !Covers(t, key)
    ensures Consistent(Insert(t, key, b))
  {
    var u := Insert(t, key, b);
    CoversEntry(t, key);
    InsertHas(t, key, b);
    forall i, j | 0 <= i < |u| && 0 <= j < |u| && SameText(u[i].0, u[j].0)
      ensures u[i].1 == u[j].1
    {
      assert u[i] in u && u[j] in u;
      if u[i] in t && u[j] in t {
        var a :| 0 <= a < |t| && t[a] == u[i];
        var c :| 0 <= c < |t| && t[c] == u[j];
      }
    }
  }

  /** Completing a table fails exactly when a label has no conventional meaning and the user gave it none. */
  lemma {:induction false} CompletedIff(table: Table, labels: seq<string>)
    ensures Completed(table, labels).None? <==>
      exists w :: w in labels && !Covers(table, w) && TruthOfLabel(w).None?
  {
    if labels != [] {
      var n := |labels| - 1;
      var w := labels[n];
      CompletedIff(table, labels[..n]);
      assert labels == labels[..n] + [w];
      if Completed(table, labels[..n]).Some? {
        CompletedCovers(table, labels[..n]);
        var t := Completed(table, labels[..n]).value;
        CoversEntry(t, w);
        CoversEntry(table, w);
        if e :| e in t && SameText(e.0, w) {
          SameMeaning(e.0, w);
        }
      }
    }
  }

  /** The default table exists exactly when every label is known and both meanings occur. */
  lemma TruthDefaultIff(labels: seq<string>)
    ensures TruthDefaultSpec(labels).Some? <==>
      (forall w :: w in labels ==> TruthOfLabel(w).Some?) &&
      (exists w :: w in labels && TruthOfLabel(w) == Some(true)) && (exists w :: w in labels && TruthOfLabel(w) == Some(false))
  {
    ConventionalLists(labels);
    if Conventional(labels).Some? {
      var t := Conventional(labels).value;
      HasMeaning(t, labels, true);
      HasMeaning(t, labels, false);
    }
  }

  lemma HasMeaning(t: Table, labels: seq<string>, want: bool)
    requires Known(t) && forall w :: (exists e :: e in t && e.0 == w) <==> w in labels
    ensures Has(t, want) <==> exists w :: w in labels && TruthOfLabel(w) == Some(want)
  {
  }

  /** An accepted plan for a labelled enum on a boolean leaf leaves no label without a meaning, keeps every
      entry the user made, and contradicts itself only if the user's own table does. */
  lemma PlanTruthTotal(path: string, unit: string, options: Labels, entry: FieldMapping)
    requires PlanSpec(path, unit, options, entry).Ok? && WantsTruth(path, options)
    ensures var truth := PlanSpec(path, unit, options, entry).value.truth;
      truth != [] &&
      (forall w :: w in options ==> Covers(truth, w)) &&
      (forall e :: e in entry.truth ==> e in truth) &&
      (Consistent(entry.truth) ==> Consistent(truth))
  {
    var truth := PlanSpec(path, unit, options, entry).value.truth;
    if entry.truth == [] {
      ConventionalLists(options);
      KnownIsConsistent(truth);
      forall w | w in options
        ensures Covers(truth, w)
      {
        var e :| e in truth && e.0 == w;
        CoversEntry(truth, w);
      }
    } else {
      CompletedCovers(entry.truth, options);
      assert entry.truth[0] in truth;
    }
  }

  /** Under such a plan every index in range publishes a boolean. */
  lemma PlanPublishes(path: string, unit: string, options: Labels, entry: FieldMapping, v: Value)
    requires PlanSpec(path, unit, options, entry).Ok? && WantsTruth(path, options)
    requires IsEnum(v) && v.options == options && 0 <= v.index < |options|
    ensures var p := PlanSpec(path, unit, options, entry).value;
      Encode(v, p.conv, p.invert, p.truth).Some? && Encode(v, p.conv, p.invert, p.truth).value.Bool?
  {
    var p := PlanSpec(path, unit, options, entry).value;
    PlanTruthTotal(path, unit, options, entry);
    var word := LabelOf(v).value;
    assert word in options;
    MeaningFound(p.truth, word);
  }

  /** Every conversion a plan uses can be undone. */
  lemma PlanConverts(path: string, unit: string, options: Labels, entry: FieldMapping)
    requires PlanSpec(path, unit, options, entry).Ok?
    ensures PlanSpec(path, unit, options, entry).value.conv.scale != 0.0
  {
    PlanParts(path, unit, options, entry);
    UnitConverts(LeafUnit(LeafOf(path)), Normalize(unit));
  }

  /** An accepted plan has the conversion and the warning of its unit. */
  lemma PlanParts(path: string, unit: string, options: Labels, entry: FieldMapping)
    requires PlanSpec(path, unit, options, entry).Ok?
    ensures var p, u := PlanSpec(path, unit, options, entry).value, PlanUnit(LeafUnit(LeafOf(path)), Normalize(unit));
      u.Some? && p.conv == u.value.0 && p.warning == u.value.2
  {
  }

  lemma UnitConverts(leaf: Option<string>, dev: string)
    requires PlanUnit(leaf, dev).Some?
    ensures PlanUnit(leaf, dev).value.0.scale != 0.0
  {
  }

  /** With no table of the user's, both a true and a false PUT succeed, and publish what was sent. */
  lemma PlanTakesBoth(path: string, unit: string, entry: FieldMapping, template: Value, b: bool)
    requires IsEnum(template)
    ensures var r := PlanSpec(path, unit, template.options, entry);
      r.Ok? && WantsTruth(path, template.options) && entry.truth == [] ==>
        r.value.conv.scale != 0.0 && Decode(Bool(b), template, r.value.conv, r.value.invert, r.value.truth).Ok? &&
        Honoured(Bool(b), template, r.value.conv, r.value.invert, r.value.truth)
  {
    var r := PlanSpec(path, unit, template.options, entry);
    if r.Ok? && WantsTruth(path, template.options) && entry.truth == [] {
      PlanConverts(path, unit, template.options, entry);
      DefaultTakesBoth(template.options, r.value.truth, template, r.value.conv, r.value.invert, b);
    }
  }

  lemma DefaultTakesBoth(options: Labels, truth: Table, template: Value, conv: Conversion, invert: bool, b: bool)
    requires TruthDefaultSpec(options) == Some(truth) && conv.scale != 0.0
    requires IsEnum(template) && template.options == options && !Unlabeled(options)
    ensures Decode(Bool(b), template, conv, invert, truth).Ok? && Honoured(Bool(b), template, conv, invert, truth)
  {
    ConventionalLists(options);
    KnownIsConsistent(truth);
    SomeLabelMeans(options, truth, Xor(b, invert));
    TableWrites(b, template, conv, invert, truth);
    TablePut(Bool(b), template, conv, invert, truth);
  }

  lemma SomeLabelMeans(options: Labels, truth: Table, want: bool)
    requires Has(truth, want) && forall w :: (exists e :: e in truth && e.0 == w) <==> w in options
    ensures FirstMeaning(options, truth, want).Some?
  {
    var i :| 0 <= i < |truth| && truth[i].1 == want;
    assert truth[i] in truth && truth[i].0 in options;
    assert Means(truth, truth[i].0, want);
  }

  /** With a table of the user's that does not contradict itself, a boolean PUT that succeeds is honoured. */
  lemma PlanHonours(path: string, unit: string, options: Labels, entry: FieldMapping, template: Value, j: Json)
    requires PlanSpec(path, unit, options, entry).Ok? && WantsTruth(path, options) && Consistent(entry.truth)
    requires IsEnum(template) && template.options == options
    ensures var p := PlanSpec(path, unit, options, entry).value;
      p.conv.scale != 0.0 &&
      (Decode(j, template, p.conv, p.invert, p.truth).Ok? ==> Honoured(j, template, p.conv, p.invert, p.truth))
  {
    var p := PlanSpec(path, unit, options, entry).value;
    PlanTruthTotal(path, unit, options, entry);
    PlanConverts(path, unit, options, entry);
    if Decode(j, template, p.conv, p.invert, p.truth).Ok? {
      TablePut(j, template, p.conv, p.invert, p.truth);
    }
  }

  /** A plan is refused for want of meanings exactly when a label has none: with no table of the user's, also
      when the labels do not include both an on and an off. */
  lemma TruthRefusedIff(path: string, options: Labels, user: Table)
    requires WantsTruth(path, options)
    ensures PlanTruth(path, options, user).None? <==>
      if user == [] then
        !((forall w :: w in options ==> TruthOfLabel(w).Some?) &&
          (exists w :: w in options && TruthOfLabel(w) == Some(true)) &&
          (exists w :: w in options && TruthOfLabel(w) == Some(false)))
      else exists w :: w in options && !Covers(user, w) && TruthOfLabel(w).None?
  {
    if user == [] {
      TruthDefaultIff(options);
    } else {
      CompletedIff(user, options);
    }
  }

  // ----- what a plan takes from its entry, and when it is refused

  function Negated(b: bool, negate: bool): bool {
    if negate then !b else b
  }

  /** Under an accepted plan a boolean is published negated exactly when the entry says so, and the notifications
      are the entry's. */
  lemma PlanInverts(path: string, unit: string, options: Labels, entry: FieldMapping, b: bool)
    requires PlanSpec(path, unit, options, entry).Ok?
    ensures var p := PlanSpec(path, unit, options, entry).value;
      Encode(Boolean(b), p.conv, p.invert, p.truth) == Some(Bool(Negated(b, entry.invert))) &&
      p.notify == entry.notify
  {
  }

  /** Under an accepted plan a label is published as what the user's consistent table says of it, or without a
      table as what it conventionally means; negated exactly when the entry says so. */
  lemma PlanPublishesMeaning(path: string, unit: string, entry: FieldMapping, v: Value, b: bool)
    requires IsEnum(v) && 0 <= v.index < |v.options| && WantsTruth(path, v.options)
    requires PlanSpec(path, unit, v.options, entry).Ok? && Consistent(entry.truth)
    requires if entry.truth == [] then TruthOfLabel(v.options[v.index]) == Some(b)
             else Means(entry.truth, v.options[v.index], b)
    ensures var p := PlanSpec(path, unit, v.options, entry).value;
      Encode(v, p.conv, p.invert, p.truth) == Some(Bool(Negated(b, entry.invert)))
  {
    var p := PlanSpec(path, unit, v.options, entry).value;
    PlanTruthTotal(path, unit, v.options, entry);
    PlanTableIs(path, unit, v.options, entry);
    var word := v.options[v.index];
    if entry.truth == [] {
      KnownMeaning(v.options, p.truth, word, b);
    } else {
      var i :| 0 <= i < |entry.truth| && SameText(entry.truth[i].0, word) && entry.truth[i].1 == b;
      assert entry.truth[i] in p.truth;
    }
    ConsistentMeaning(p.truth, word, b);
    TablePublishes(v, p.conv, p.invert, p.truth);
  }

  lemma PlanTableIs(path: string, unit: string, options: Labels, entry: FieldMapping)
    requires PlanSpec(path, unit, options, entry).Ok?
    ensures var p := PlanSpec(path, unit, options, entry).value;
      PlanTruth(path, options, entry.truth) == Some(p.truth) && p.invert == entry.invert &&
      (!TakesBooleans(path) || (forall w :: w in options ==> Trim(w) == "") ==> p.truth == entry.truth)
  {
    if WantsTruth(path, options) {
      var i :| 0 <= i < |options| && Trim(options[i]) != "";
      assert options[i] in options;
    }
  }

  lemma KnownMeaning(options: Labels, truth: Table, word: string, b: bool)
    requires TruthDefaultSpec(options) == Some(truth) && word in options && TruthOfLabel(word) == Some(b)
    ensures Means(truth, word, b)
  {
    ConventionalLists(options);
    var e :| e in truth && e.0 == word;
    var i :| 0 <= i < |truth| && truth[i] == e;
  }

  /** A path can be published to: it has segments of path characters only, and as many as its branch needs. */
  predicate IsGoodPath(path: string) {
    var seg := Split(Trim(path), '.');
    Trim(path) != "" && (forall i :: 0 <= i < |seg| ==> seg[i] != "" && AllPathChars(seg[i])) &&
    |seg| >= (if seg[0] == "electrical" || seg[0] == "tanks" then 4
              else if seg[0] == "propulsion" || seg[0] == "sails" then 3
              else 2)
  }

  /** A leaf that is published as a boolean: "enabled" anywhere, and "state" of a switch. */
  predicate TakesBooleans(path: string) {
    var seg := Split(path, '.');
    var leaf := seg[|seg| - 1];
    leaf == "enabled" || (leaf == "state" && |path| >= 20 && path[..20] == "electrical.switches.")
  }

  /** A boolean leaf is given an enum with labels of which some have no meaning: none of the user's and none by
      convention, or without a table of the user's not both an on and an off among them. */
  predicate LacksTruth(path: string, options: Labels, user: Table) {
    TakesBooleans(path) && (exists w :: w in options && Trim(w) != "") &&
    if user == [] then
      !((forall w :: w in options ==> TruthOfLabel(w).Some?) &&
        (exists w :: w in options && TruthOfLabel(w) == Some(true)) &&
        (exists w :: w in options && TruthOfLabel(w) == Some(false)))
    else exists w :: w in options && !Covers(user, w) && TruthOfLabel(w).None?
  }

  lemma LacksTruthIff(path: string, options: Labels, user: Table)
    ensures PlanTruth(path, options, user).None? <==> LacksTruth(path, options, user)
  {
    TakesBooleansIff(path);
    if w :| w in options && Trim(w) != "" {
      var i :| 0 <= i < |options| && options[i] == w;
    }
    if WantsTruth(path, options) {
      var i :| 0 <= i < |options| && Trim(options[i]) != "";
      assert options[i] in options;
      TruthRefusedIff(path, options, user);
    }
  }

  lemma TakesBooleansIff(path: string)
    ensures TakesBooleans(path) <==> LeafIsBoolean(path)
  {
  }

  /** The leaf takes booleans and the device has a unit that becomes one of the SI, or the leaf has a unit and the
      device's is another. */
  predicate UnitClashes(path: string, unit: string) {
    if TakesBooleans(path) && ToSi(unit).Some? then true
    else
      LeafUnit(LeafOf(path)).Some? && Normalize(unit) != "" &&
      (ToSi(unit).None? || ToSi(unit).value.unit != LeafUnit(LeafOf(path)).value)
  }

  /** A plan is refused for its path exactly when that is not a good one, then for want of a truth table, then for
      its unit exactly when that clashes; otherwise it is accepted. */
  lemma PlanRefusedIff(path: string, unit: string, options: Labels, entry: FieldMapping)
    ensures var r := PlanSpec(path, unit, options, entry);
      if !IsGoodPath(path) then r.Err? && r.error.Path?
      else if LacksTruth(path, options, entry.truth) then r == Err(NoTruth(options))
      else if UnitClashes(path, unit) then
        r == Err(WrongUnit(Normalize(unit), if TakesBooleans(path) && ToSi(unit).Some? then "boolean"
                                            else LeafUnit(LeafOf(path)).value))
      else r.Ok?
  {
    GoodPathIff(path);
    LacksTruthIff(path, options, entry.truth);
    UnitClashesIff(path, unit);
    TakesBooleansIff(path);
  }

  lemma UnitClashesIff(path: string, unit: string)
    ensures UnitClashes(path, unit) <==>
      (LeafIsBoolean(path) && ToSiOf(Normalize(unit)).Some?) || PlanUnit(LeafUnit(LeafOf(path)), Normalize(unit)).None?
  {
    TakesBooleansIff(path);
  }

  /** The leaves of an electric quantity. */
  lemma ElectricLeaves(leaf: string)
    ensures LeafUnit(leaf) == Some("V") <==>
      leaf in ["voltage", "voltageSense", "panelVoltage", "lineNeutralVoltage", "lineLineVoltage"]
    ensures LeafUnit(leaf) == Some("A") <==> leaf in ["current", "currentLimit", "panelCurrent", "loadCurrent"]
    ensures LeafUnit(leaf) == Some("W") <==> leaf in ["power", "realPower", "panelPower"]
  {
  }

  /** The other leaves with a unit of their own. */
  lemma OtherLeaves(leaf: string)
    ensures LeafUnit(leaf) == Some("J") <==> leaf in ["yieldToday", "yieldTotal"]
    ensures LeafUnit(leaf) == Some("Hz") <==> leaf in ["frequency", "revolutions"]
    ensures LeafUnit(leaf) == Some("ratio") <==> leaf in ["stateOfCharge", "stateOfHealth"]
    ensures LeafUnit(leaf) == Some("s") <==> leaf == "timeRemaining"
    ensures LeafUnit(leaf) == Some("C") <==> leaf == "dischargeSinceFull"
    ensures LeafUnit(leaf) == Some("K") <==> leaf == "temperature"
  {
  }

  lemma {:induction false} PieceOf(s: string, c: char)
    requires c in s && c != '.'
    ensures exists i :: 0 <= i < |Split(s, '.')| && c in Split(s, '.')[i]
  {
    var rest := Split(s[1..], '.');
    if s[0] == '.' {
      PieceOf(s[1..], c);
      var i :| 0 <= i < |rest| && c in rest[i];
      assert Split(s, '.')[i + 1] == rest[i];
    } else if s[0] == c {
      assert c in Split(s, '.')[0];
    } else {
      PieceOf(s[1..], c);
      var i :| 0 <= i < |rest| && c in rest[i];
      assert Split(s, '.')[i] == if i == 0 then [s[0]] + rest[0] else rest[i];
    }
  }

  lemma GoodPathIff(path: string)
    ensures CheckPath(path).None? <==> IsGoodPath(path)
  {
    var p := Trim(path);
    var seg := Split(p, '.');
    if i :| 0 <= i < |p| && IsSpace(p[i]) {
      PieceOf(p, p[i]);
      var j :| 0 <= j < |seg| && p[i] in seg[j];
      assert !AllPathChars(seg[j]);
    }
  }

  /** What is said to be wrong with a path is: that there is none, that there is a space in it, that it ends in a dot
      or has nothing between two, that a segment has a character that is not a path's, or that it is too short. */
  predicate IsWrongWith(path: string, e: PathError) {
    var p := Trim(path);
    var seg := Split(p, '.');
    match e
    case NoPath => forall i :: 0 <= i < |path| ==> IsSpace(path[i])
    case Spaces => exists i :: 0 <= i < |p| && IsSpace(p[i])
    case Prefix => p != "" && p[|p| - 1] == '.'
    case EmptySegment => "" in seg && p != "" && p[|p| - 1] != '.'
    case BadSegment => exists i :: 0 <= i < |seg| && seg[i] != "" && !AllPathChars(seg[i])
    case TooShort => |seg| < Needed(seg[0]) && forall i :: 0 <= i < |seg| ==> seg[i] != "" && AllPathChars(seg[i])
  }

  lemma PathErrorIsTrue(path: string)
    ensures CheckPath(path).Some? ==> IsWrongWith(path, CheckPath(path).value)
  {
    if Trim(path) == "" {
      BlankThroughout(path);
    }
  }

  lemma BlankThroughout(s: string)
    requires Trim(s) == ""
    ensures forall i :: 0 <= i < |s| ==> IsSpace(s[i])
  {
    EndIsBlank(s);
    StartIsBlank(TrimEnd(s));
  }

  lemma {:induction false} EndIsBlank(s: string)
    ensures TrimEnd(s) <= s && forall i :: |TrimEnd(s)| <= i < |s| ==> IsSpace(s[i])
  {
    if s != "" && IsSpace(s[|s| - 1]) {
      EndIsBlank(s[..|s| - 1]);
    }
  }

  lemma {:induction false} StartIsBlank(s: string)
    requires TrimStart(s) == ""
    ensures forall i :: 0 <= i < |s| ==> IsSpace(s[i])
  {
    if s != "" {
      StartIsBlank(s[1..]);
      assert forall i :: 1 <= i < |s| ==> s[i] == s[1..][i - 1];
    }
  }

  /** A good path in a branch of devices names an instance. */
  lemma GoodPathNamesInstance(path: string)
    requires IsGoodPath(path) && NodeDepth(Split(Trim(path), '.')[0]) > 0
    ensures InstanceOf(Trim(path)).Some?
  {
  }

  /** Published to a leaf without a unit of its own, a value is in the SI unit of the device's, with that
      conversion, or as it is; a unit that cannot be converted is warned of. */
  lemma PlanUnitIsFree(path: string, unit: string, options: Labels, entry: FieldMapping)
    requires PlanSpec(path, unit, options, entry).Ok? && LeafUnit(LeafOf(path)).None?
    ensures var p := PlanSpec(path, unit, options, entry).value;
      match ToSi(unit)
      case Some(si) =>
        p.conv == si.conv && p.warning == None &&
        p.unit == if p.truth != [] || LeafIsBoolean(path) then None else Some(si.unit)
      case None =>
        p.conv == IDENTITY && p.unit == None && p.warning == if Normalize(unit) == "" then None else Some(Normalize(unit))
  {
  }

  // ----- what is published and what is written

  /** A number is published in the unit of the plan, and a number that is sent is written as what comes out at it. */
  lemma NumbersAreConverted(x: real, j: Json, template: Value, conv: Conversion, invert: bool, truth: Table)
    requires conv.scale != 0.0 && template.Float?
    ensures Encode(Float(Some(x)), conv, invert, truth) == Some(Real(x * conv.scale + conv.offset))
    ensures Decode(j, template, conv, invert, truth).Ok? <==> j.Int? || j.Real?
    ensures j.Int? || j.Real? ==>
      var w, sent := Decode(j, template, conv, invert, truth).value, if j.Int? then j.i as real else j.r;
      w.Float? && w.x.Some? && w.x.value * conv.scale + conv.offset == sent &&
      Encode(w, conv, invert, truth) == Some(Real(sent))
  {
    assert conv.Apply(x) == x * conv.scale + conv.offset;
    if j.Int? || j.Real? {
      var sent := if j.Int? then j.i as real else j.r;
      UnapplyUndoes(conv, sent);
      assert conv.Apply(conv.Unapply(sent)) == conv.Unapply(sent) * conv.scale + conv.offset;
    }
  }

  /** A time is published as its seconds: a minute is sixty of them, an hour sixty minutes, a day 24 hours. */
  lemma SecondsCount(t: Clock, n: I32)
    ensures Seconds(Clock(n, 0, 0, 0)) == n as real
    ensures Seconds(t.(min := n)) - Seconds(t.(min := 0)) == 60.0 * Seconds(Clock(n, 0, 0, 0))
    ensures Seconds(t.(hour := n)) - Seconds(t.(hour := 0)) == 60.0 * Seconds(Clock(0, n, 0, 0))
    ensures Seconds(t.(days := n)) - Seconds(t.(days := 0)) == 24.0 * Seconds(Clock(0, 0, n, 0))
    ensures Seconds(t.(sec := n)) - Seconds(t.(sec := 0)) == n as real
  {
  }

  lemma TimesArePublished(t: Clock, conv: Conversion, invert: bool, truth: Table)
    ensures Encode(Time(t), conv, invert, truth) ==
      if t.sec < 0 then None else Encode(Float(Some(Seconds(t))), conv, invert, truth)
  {
  }

  /** An enum without labels is published as on or off, and one with labels and no table as its label in lower
      case; past its options nothing is published. */
  lemma EnumsArePublished(v: Value, conv: Conversion, invert: bool)
    requires IsEnum(v)
    ensures var j := Encode(v, conv, invert, []);
      if !(0 <= v.index < |v.options|) then j == None
      else if Unlabeled(v.options) then j == Some(Bool(Negated(v.index != 0, invert)))
      else j.Some? && j.value.Str? && SameText(j.value.s, v.options[v.index]) && LowerCase(j.value.s) == j.value.s
  {
    if 0 <= v.index < |v.options| {
      LowerTwice(v.options[v.index]);
    }
  }

  /** A text is published as it is, unless empty, and a string is written to a text as it is. */
  lemma TextsAreKept(sid: nat, text: string, s: string, conv: Conversion, invert: bool, truth: Table)
    requires conv.scale != 0.0
    ensures Encode(Text(sid, text), conv, invert, truth) == if text == "" then None else Some(Str(text))
    ensures Decode(Str(s), Text(sid, text), conv, invert, truth) == Ok(Text(sid, s))
  {
  }

  /** A number sent to an enum with labels and no table selects that option, if there is one. */
  lemma IndexPut(i: int, template: Value, conv: Conversion, invert: bool)
    requires conv.scale != 0.0 && IsEnum(template) && !Unlabeled(template.options) && template.options != []
    ensures var w := Decode(Int(i), template, conv, invert, []);
      if 0 <= i < |template.options| then
        w.Ok? && w.value.index == i && w.value.options == template.options && (w.value.List? <==> template.List?)
      else w == Err(NotAnIndex)
  {
  }

  const YES: seq<string> := ["true", "on", "1", "yes"]
  const NO: seq<string> := ["false", "off", "0", "no"]

  /** A string stands for a boolean when, without the space around it and whatever its case, it is one of these. */
  lemma WordsPut(s: string)
    ensures AsBool(Str(s)) == Some(true) <==> LowerCase(Trim(s)) in YES
    ensures AsBool(Str(s)) == Some(false) <==> LowerCase(Trim(s)) in NO
  {
  }

  /** A number stands for true unless it is zero. */
  lemma NumbersPut(i: int)
    ensures AsBool(Int(i)) == AsBool(Real(i as real)) == AsBool(Bool(i != 0)) == Some(i != 0)
  {
  }

  const ONS: seq<string> := ["on", "activated", "active", "enabled", "yes", "true", "closed"]
  const OFFS: seq<string> := ["off", "standby", "disabled", "inactive", "no", "false", "open"]

  /** The labels with a conventional meaning, whatever the case and the space around them. */
  lemma LabelsMean(word: string)
    ensures TruthOfLabel(word) == Some(true) <==> LowerCase(Trim(word)) in ONS
    ensures TruthOfLabel(word) == Some(false) <==> LowerCase(Trim(word)) in OFFS
  {
  }

  /** A number published to a leaf with a known unit is in that unit: the device's own unit converts to it,
      or the device names none. */
  lemma PlanUnitIsLeafs(path: string, unit: string, options: Labels, entry: FieldMapping)
    requires PlanSpec(path, unit, options, entry).Ok? && LeafUnit(LeafOf(path)).Some?
    ensures var p, l := PlanSpec(path, unit, options, entry).value, LeafUnit(LeafOf(path));
      p.unit == (if p.truth != [] || LeafIsBoolean(path) then None else l) && p.warning == None &&
      (Normalize(unit) != "" ==> ToSi(unit) == Some(Si(l.value, p.conv))) &&
      (Normalize(unit) == "" ==> p.conv == IDENTITY)
  {
  }
}
