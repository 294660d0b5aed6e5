/** The parser undoes the printer, exactly for the configurations the file can hold. */
module SettingsRoundTrip {
  import opened Prelude
  import opened Settings
  import opened Text

  // ----- values

  lemma {:induction false} UnquoteStartShortens(s: string)
    ensures |UnquoteStart(s)| <= |s| && (forall c :: c in UnquoteStart(s) ==> c in s)
    ensures UnquoteStart(s) == s <==> s == "" || s[0] != '"'
    ensures |UnquoteStart(s)| == |s| ==> UnquoteStart(s) == s
  {
    if s != "" && s[0] == '"' {
      UnquoteStartShortens(s[1..]);
    }
  }

  lemma {:induction false} UnquoteEndShortens(s: string)
    ensures |UnquoteEnd(s)| <= |s| && (forall c :: c in UnquoteEnd(s) ==> c in s)
    ensures UnquoteEnd(s) == s <==> s == "" || s[|s| - 1] != '"'
    ensures |UnquoteEnd(s)| == |s| ==> UnquoteEnd(s) == s
  {
    if s != "" && s[|s| - 1] == '"' {
      UnquoteEndShortens(s[..|s| - 1]);
    }
  }

  lemma {:induction false} BeforeCommentShortens(s: string)
    ensures |BeforeComment(s)| <= |s| && (forall c :: c in BeforeComment(s) ==> c in s)
    ensures BeforeComment(s) == s <==> '#' !in s && ';' !in s
    ensures |BeforeComment(s)| == |s| ==> BeforeComment(s) == s
  {
    if s != "" && !IsComment(s[0]) {
      BeforeCommentShortens(s[1..]);
      assert s == [s[0]] + s[1..];
    }
  }

  lemma UnquotedShortens(s: string)
    ensures |Unquoted(s)| <= |s| && (forall c :: c in Unquoted(s) ==> c in s)
    ensures Unquoted(s) == s <==> !EndsWith(s, (c: char) => c == '"')
    ensures |Unquoted(s)| == |s| ==> Unquoted(s) == s
  {
    UnquoteEndShortens(s);
    UnquoteStartShortens(UnquoteEnd(s));
  }

  /** A value as it comes back from a line it was printed on. */
  function ReadBack(v: string): string {
    Value(BeforeComment(v))
  }

  /** Text that a line can hold: no comment characters, and no spaces or quotes at its ends. */
  predicate CleanText(v: string) {
    '#' !in v && ';' !in v && (v == "" || (!IsSpace(v[0]) && !IsSpace(v[|v| - 1]) && v[0] != '"' && v[|v| - 1] != '"'))
  }

  lemma ValueShortens(s: string)
    ensures |Value(s)| <= |s| && (forall c :: c in Value(s) ==> c in s)
    ensures Value(s) == s <==> !EndsWith(s, IsSpace) && !EndsWith(s, (c: char) => c == '"')
    ensures |Value(s)| == |s| ==> Value(s) == s
  {
    TrimShortens(s);
    UnquotedShortens(Trim(s));
    TrimShortens(Unquoted(Trim(s)));
  }

  /** A value comes back unchanged exactly when it is clean. */
  lemma ReadBackIff(v: string)
    ensures ReadBack(v) == v <==> CleanText(v)
    ensures forall c :: c in ReadBack(v) ==> c in v
  {
    BeforeCommentShortens(v);
    ValueShortens(BeforeComment(v));
  }

  // ----- one line

  predicate IsPlainKey(key: string) {
    key != "" && forall i :: 0 <= i < |key| ==> !IsSpace(key[i]) && !IsComment(key[i]) && key[i] != '='
  }

  lemma {:induction false} BeforeCommentConcat(a: string, b: string)
    requires forall i :: 0 <= i < |a| ==> !IsComment(a[i])
    ensures BeforeComment(a + b) == a + BeforeComment(b)
  {
    if a == "" {
      assert a + b == b;
    } else {
      assert (a + b)[1..] == a[1..] + b;
      BeforeCommentConcat(a[1..], b);
    }
  }

  lemma {:induction false} SplitOnceAt(key: string, rest: string)
    requires '=' !in key
    ensures SplitOnce(key + "=" + rest) == Some((key, rest))
  {
    var s := key + "=" + rest;
    if key == "" {
      assert s[1..] == rest;
    } else {
      assert s[1..] == key[1..] + "=" + rest;
      SplitOnceAt(key[1..], rest);
      assert [s[0]] + key[1..] == key;
    }
  }

  lemma ContentOf(key: string, v: string)
    requires IsPlainKey(key)
    ensures Content(key + " = " + v) ==
      var w := TrimEnd(BeforeComment(v)); if w == "" then key + " =" else key + " = " + w
  {
    var w := BeforeComment(v);
    BeforeCommentConcat(key + " = ", v);
    TrimEndConcat(key + " = ", w);
    TrimEndConcat(key + " =", " ");
    assert key + " =" + " " == key + " = ";
    assert !IsSpace('=');
    assert TrimEnd(" ") == "" by {
      assert " "[..0] == "";
    }
    TrimEndTwice(key + " =");
  }

  lemma TrimmedKey(key: string)
    requires IsPlainKey(key)
    ensures Trim(key + " ") == key
  {
    TrimEndConcat(key, " ");
    assert TrimEnd(" ") == "" by {
      assert " "[..0] == "";
    }
    TrimEndTwice(key);
  }

  lemma ValueOfRest(w: string)
    ensures TrimEnd(w) != "" ==> Value(" " + TrimEnd(w)) == Value(w)
    ensures TrimEnd(w) == "" ==> Value(w) == "" && Value("") == ""
  {
  }

  /** A printed line sets its key to the value as it comes back. */
  lemma SettingLine(d: Draft, key: string, v: string, n: nat)
    requires IsPlainKey(key)
    ensures ParseLine(d, key + " = " + v, n) == Set(d, key, ReadBack(v), n)
  {
    ContentOf(key, v);
    TrimmedKey(key);
    ValueOfRest(BeforeComment(v));
    SplitContent(key, TrimEnd(BeforeComment(v)));
  }

  lemma SplitContent(key: string, v: string)
    requires IsPlainKey(key)
    ensures SplitOnce(if v == "" then key + " =" else key + " = " + v) ==
      Some((key + " ", if v == "" then "" else " " + v))
  {
    if v == "" {
      SplitOnceAt(key + " ", "");
      assert key + " " + "=" + "" == key + " =";
    } else {
      SplitOnceAt(key + " ", " " + v);
      assert key + " " + "=" + (" " + v) == key + " = " + v;
    }
  }

  lemma CommentLine(d: Draft, line: string, n: nat)
    requires line == "" || IsComment(line[0])
    ensures ParseLine(d, line, n) == Ok(d)
  {
  }

  /** A "\r" at its end makes no difference to a line. */
  lemma CrIgnored(d: Draft, line: string, n: nat)
    ensures ParseLine(d, WithoutCr(line), n) == ParseLine(d, line, n)
  {
    if WithoutCr(line) != line {
      var s := WithoutCr(line);
      assert line == s + "\r";
      if BeforeComment(s) == s {
        BeforeCommentShortens(s);
        BeforeCommentConcat(s, "\r");
        assert BeforeComment("\r") == "\r";
        assert (s + "\r")[..|s|] == s;
      } else {
        CommentCuts(s, "\r");
      }
    }
  }

  lemma {:induction false} CommentCuts(s: string, t: string)
    requires BeforeComment(s) != s
    ensures BeforeComment(s + t) == BeforeComment(s)
  {
    if !IsComment(s[0]) {
      assert (s + t)[1..] == s[1..] + t;
      assert [s[0]] + s[1..] == s;
      CommentCuts(s[1..], t);
    }
  }

  // ----- many lines

  lemma {:induction false} ParseAppended(d: Draft, a: seq<string>, b: seq<string>, n: nat)
    ensures ParseLines(d, a + b, n) ==
      match ParseLines(d, a, n)
      case Err(e) => Err(e)
      case Ok(m) => ParseLines(m, b, n + |a|)
    decreases |a|
  {
    if a == [] {
      assert a + b == b;
    } else {
      assert (a + b)[1..] == a[1..] + b;
      match ParseLine(d, a[0], n)
      case Err(_) =>
      case Ok(m) => ParseAppended(m, a[1..], b, n + 1);
    }
  }

  lemma {:induction false} EndedParse(d: Draft, lines: seq<string>, n: nat)
    ensures ParseLines(d, Ended(lines), n) == ParseLines(d, lines, n)
    decreases |lines|
  {
    if lines != [] {
      CrIgnored(d, lines[0], n);
      assert Ended(lines)[1..] == Ended(lines[1..]);
      match ParseLine(d, lines[0], n)
      case Err(_) =>
      case Ok(m) => EndedParse(m, lines[1..], n + 1);
    }
  }

  /** The line ends do not matter: a file parses as its pieces between "\n"s do. */
  lemma PiecesParse(d: Draft, raw: string)
    ensures ParseLines(d, Lines(raw), 1) == ParseLines(d, Text.Split(raw, '\n'), 1)
  {
    var pieces := Text.Split(raw, '\n');
    var n := |pieces| - 1;
    assert pieces == pieces[..n] + [pieces[n]];
    LastPiece(d, pieces[..n], pieces[n]);
  }

  lemma LastPiece(d: Draft, front: seq<string>, last: string)
    ensures ParseLines(d, Ended(front) + if last == "" then [] else [last], 1) == ParseLines(d, front + [last], 1)
  {
    ParseAppended(d, front, [last], 1);
    EndedParse(d, front, 1);
    if last == "" {
      assert Ended(front) + [] == Ended(front);
      match ParseLines(d, front, 1)
      case Err(_) =>
      case Ok(m) => CommentLineAlone(m, last, 1 + |front|);
    } else {
      ParseAppended(d, Ended(front), [last], 1);
    }
  }

  lemma CommentLineAlone(d: Draft, line: string, n: nat)
    ensures ParseLines(d, [line], n) == ParseLine(d, line, n)
    ensures line == "" ==> ParseLine(d, line, n) == Ok(d)
  {
  }

  lemma {:induction false} SplitAppended(a: string, b: string)
    ensures Text.Split(a + "\n" + b, '\n') == Text.Split(a, '\n') + Text.Split(b, '\n')
  {
    var s := a + "\n" + b;
    if a == "" {
      assert s[1..] == b;
    } else {
      assert s[1..] == a[1..] + "\n" + b;
      SplitAppended(a[1..], b);
    }
  }

  predicate IsFileLine(line: Line) {
    match line
    case Comment(text) => IsCommentLine(text)
    case Entry(key, value) => IsPlainKey(key) && '\n' !in value
  }

  predicate AreFileLines(lines: seq<Line>) {
    forall i :: 0 <= i < |lines| ==> IsFileLine(lines[i])
  }

  function Texts(lines: seq<Line>): (r: seq<string>)
    ensures |r| == |lines| && forall i :: 0 <= i < |r| ==> r[i] == TextOf(lines[i])
  {
    seq(|lines|, i requires 0 <= i < |lines| => TextOf(lines[i]))
  }

  lemma PlainHasNoNewline(line: Line)
    requires IsFileLine(line)
    ensures '\n' !in TextOf(line)
  {
  }

  lemma SplitFirstLine(lines: seq<Line>)
    requires lines != [] && AreFileLines(lines)
    requires Text.Split(Unlines(lines[1..]), '\n') == Texts(lines[1..]) + [""]
    ensures Text.Split(Unlines(lines), '\n') == Texts(lines) + [""]
  {
    PlainHasNoNewline(lines[0]);
    Text.SplitOfPiece(TextOf(lines[0]), Unlines(lines[1..]), '\n');
    assert Texts(lines) == [TextOf(lines[0])] + Texts(lines[1..]);
  }

  lemma {:induction false} SplitUnlines(lines: seq<Line>)
    requires AreFileLines(lines)
    ensures Text.Split(Unlines(lines), '\n') == Texts(lines) + [""]
    decreases |lines|
  {
    if lines != [] {
      SplitUnlines(lines[1..]);
      SplitFirstLine(lines);
    }
  }

  // ----- entries

  /** The entries among some lines. */
  function EntriesOf(lines: seq<Line>): seq<Line> {
    if lines == [] then []
    else if lines[0].Entry? then [lines[0]] + EntriesOf(lines[1..])
    else EntriesOf(lines[1..])
  }

  lemma {:induction false} EntriesAppended(a: seq<Line>, b: seq<Line>)
    ensures EntriesOf(a + b) == EntriesOf(a) + EntriesOf(b)
  {
    if a == [] {
      assert a + b == b;
    } else {
      assert (a + b)[1..] == a[1..] + b;
      EntriesAppended(a[1..], b);
    }
  }

  lemma {:induction false} NoEntries(lines: seq<Line>)
    requires forall i :: 0 <= i < |lines| ==> lines[i].Comment?
    ensures EntriesOf(lines) == []
  {
    if lines != [] {
      NoEntries(lines[1..]);
    }
  }

  /** Printed entries taken in, in order; nothing when one is refused. */
  function SetAll(d: Draft, entries: seq<Line>): Option<Draft>
    decreases |entries|
  {
    if entries == [] then Some(d)
    else if entries[0].Comment? then SetAll(d, entries[1..])
    else
      match Set(d, entries[0].key, ReadBack(entries[0].value), 0)
      case Err(_) => None
      case Ok(m) => SetAll(m, entries[1..])
  }

  lemma LineNumbersAside(d: Draft, key: string, value: string, n: nat)
    ensures Set(d, key, value, n).Ok? <==> Set(d, key, value, 0).Ok?
    ensures Set(d, key, value, n).Ok? ==> Set(d, key, value, n) == Set(d, key, value, 0)
  {
  }

  /** Printed lines parse as their entries, taken in. */
  lemma {:induction false} EntriesParse(d: Draft, lines: seq<Line>, n: nat)
    requires AreFileLines(lines)
    ensures match SetAll(d, EntriesOf(lines))
      case Some(m) => ParseLines(d, Texts(lines), n) == Ok(m)
      case None => ParseLines(d, Texts(lines), n).Err?
    decreases |lines|
  {
    if lines != [] {
      var rest := lines[1..];
      assert Texts(lines)[1..] == Texts(rest);
      assert IsFileLine(lines[0]);
      match lines[0]
      case Comment(text) =>
        CommentLine(d, text, n);
        EntriesParse(d, rest, n + 1);
      case Entry(key, value) =>
        SettingLine(d, key, value, n);
        LineNumbersAside(d, key, ReadBack(value), n);
        assert EntriesOf(lines)[1..] == EntriesOf(rest);
        match Set(d, key, ReadBack(value), 0)
        case Err(_) =>
        case Ok(m) => EntriesParse(m, rest, n + 1);
    }
  }

  /** A printed file parses as its entries, taken in. */
  lemma FileParse(d: Draft, lines: seq<Line>)
    requires AreFileLines(lines)
    ensures match SetAll(d, EntriesOf(lines))
      case Some(m) => ParseLines(d, Lines(Unlines(lines)), 1) == Ok(m)
      case None => ParseLines(d, Lines(Unlines(lines)), 1).Err?
  {
    PiecesParse(d, Unlines(lines));
    SplitUnlines(lines);
    ParseAppended(d, Texts(lines), [""], 1);
    EntriesParse(d, lines, 1);
    match ParseLines(d, Texts(lines), 1)
    case Err(_) =>
    case Ok(m) => CommentLineAlone(m, "", 1 + |lines|);
  }

  // ----- the settings

  lemma DigitIsPlain(c: char)
    requires Text.IsDigit(c, 16)
    ensures !IsSpace(c) && !IsComment(c) && c != '"' && c != '\n' && c != 'x' && c != '+'
  {
  }

  lemma NumeralIsPlain(s: string)
    requires Text.IsNumeral(s, 16)
    ensures ReadBack(s) == s && '\n' !in s
  {
    forall i | 0 <= i < |s|
      ensures !IsSpace(s[i]) && !IsComment(s[i]) && s[i] != '"' && s[i] != '\n'
    {
      DigitIsPlain(s[i]);
    }
    ReadBackIff(s);
  }

  lemma NumeralIsRead(n: U32, w: nat)
    ensures ReadBack(Text.Hex(n, w)) == Text.Hex(n, w) && FromHex(Without0x(Text.Hex(n, w)), MAX_U32) == Some(n)
    ensures '\n' !in Text.Hex(n, w)
  {
    var s := Text.Hex(n, w);
    NumeralIsPlain(s);
    Text.FormattedValue(n, w, 16);
    DigitIsPlain(s[0]);
    if |s| >= 2 {
      DigitIsPlain(s[1]);
      assert s[..2][1] == s[1] && "0x"[1] == 'x';
    }
  }

  function Kept(o: Option<string>): Option<string> {
    if o.Some? && ReadBack(o.value) != "" then Some(ReadBack(o.value)) else None
  }

  /** A configuration as it comes back from the file. */
  function Cleaned(c: FileConfig): FileConfig {
    c.(deviceName := ReadBack(c.deviceName), cacheDir := Kept(c.cacheDir), listen := Kept(c.listen),
       apiListen := Kept(c.apiListen), apiToken := Kept(c.apiToken))
  }

  predicate NoNewline(o: Option<string>) {
    o.Some? ==> '\n' !in o.value
  }

  predicate OneLineEach(c: FileConfig) {
    '\n' !in c.deviceName && NoNewline(c.cacheDir) && NoNewline(c.listen) && NoNewline(c.apiListen) && NoNewline(c.apiToken)
  }

  predicate HasOurBusId(c: FileConfig) {
    c.busId.Some? ==> IsOurBusId(c.busId.value)
  }

  function Optional(key: string, value: Option<string>): seq<Line> {
    if value.Some? then [Entry(key, value.value)] else []
  }

  /** The entries of a printed configuration, in order. */
  function Entries(c: FileConfig): seq<Line> {
    Optional("heartbeat_master", HexText(c.heartbeatMaster, 6))
    + (Optional("bus_id", HexText(c.busId, 8))
    + ([Entry("device_type", TypeName(c.deviceType))]
    + ([Entry("device_name", c.deviceName)]
    + (Optional("cache_dir", c.cacheDir)
    + (Optional("listen", c.listen)
    + (Optional("api_listen", c.apiListen)
    + Optional("api_token", c.apiToken)))))))
  }

  lemma SetFirst(d: Draft, e: Line, rest: seq<Line>, m: Draft)
    requires e.Entry? && Set(d, e.key, ReadBack(e.value), 0) == Ok(m)
    ensures SetAll(d, [e] + rest) == SetAll(m, rest)
  {
  }

  lemma SetOptional(d: Draft, key: string, value: Option<string>, rest: seq<Line>, m: Draft)
    requires if value.Some? then Set(d, key, ReadBack(value.value), 0) == Ok(m) else m == d
    ensures SetAll(d, Optional(key, value) + rest) == SetAll(m, rest)
  {
    if value.Some? {
      SetFirst(d, Entry(key, value.value), rest, m);
    } else {
      assert Optional(key, value) + rest == rest;
    }
  }

  function DraftOf(c: FileConfig): Draft {
    Draft(c.heartbeatMaster, c.busId, Some(c.deviceType), c.deviceName, c.cacheDir, c.listen, c.apiListen, c.apiToken)
  }

  lemma SetTexts(d: Draft, c: FileConfig)
    requires d.cacheDir.None? && d.listen.None? && d.apiListen.None? && d.apiToken.None?
    ensures SetAll(d, Optional("cache_dir", c.cacheDir) + (Optional("listen", c.listen)
        + (Optional("api_listen", c.apiListen) + Optional("api_token", c.apiToken)))) ==
      Some(d.(cacheDir := Kept(c.cacheDir), listen := Kept(c.listen), apiListen := Kept(c.apiListen),
              apiToken := Kept(c.apiToken)))
  {
    var token := Optional("api_token", c.apiToken);
    var api := Optional("api_listen", c.apiListen) + token;
    var listen := Optional("listen", c.listen) + api;
    var d1 := d.(cacheDir := Kept(c.cacheDir));
    var d2 := d1.(listen := Kept(c.listen));
    var d3 := d2.(apiListen := Kept(c.apiListen));
    var d4 := d3.(apiToken := Kept(c.apiToken));
    SetOptional(d, "cache_dir", c.cacheDir, listen, d1);
    SetOptional(d1, "listen", c.listen, api, d2);
    SetOptional(d2, "api_listen", c.apiListen, token, d3);
    assert token + [] == token;
    SetOptional(d3, "api_token", c.apiToken, [], d4);
  }

  lemma SetDevice(d: Draft, c: FileConfig, rest: seq<Line>)
    ensures SetAll(d, [Entry("device_type", TypeName(c.deviceType))] + ([Entry("device_name", c.deviceName)] + rest)) ==
      SetAll(d.(deviceType := Some(c.deviceType), deviceName := ReadBack(c.deviceName)), rest)
  {
    ReadBackIff(TypeName(c.deviceType));
    assert LowerCase(TypeName(c.deviceType)) == TypeName(c.deviceType);
    var d1 := d.(deviceType := Some(c.deviceType));
    SetFirst(d, Entry("device_type", TypeName(c.deviceType)), [Entry("device_name", c.deviceName)] + rest, d1);
    SetFirst(d1, Entry("device_name", c.deviceName), rest, d1.(deviceName := ReadBack(c.deviceName)));
  }

  lemma SetEntries(c: FileConfig)
    requires HasOurBusId(c)
    ensures SetAll(EMPTY, Entries(c)) == Some(DraftOf(Cleaned(c)))
  {
    var texts := Optional("cache_dir", c.cacheDir) + (Optional("listen", c.listen)
        + (Optional("api_listen", c.apiListen) + Optional("api_token", c.apiToken)));
    var device := [Entry("device_type", TypeName(c.deviceType))] + ([Entry("device_name", c.deviceName)] + texts);
    if c.heartbeatMaster.Some? {
      NumeralIsRead(c.heartbeatMaster.value, 6);
    }
    if c.busId.Some? {
      NumeralIsRead(c.busId.value, 8);
    }
    var d1 := EMPTY.(heartbeatMaster := c.heartbeatMaster);
    var d2 := d1.(busId := c.busId);
    SetOptional(EMPTY, "heartbeat_master", HexText(c.heartbeatMaster, 6),
                Optional("bus_id", HexText(c.busId, 8)) + device, d1);
    SetOptional(d1, "bus_id", HexText(c.busId, 8), device, d2);
    SetDevice(d2, c, texts);
    SetTexts(d2.(deviceType := Some(c.deviceType), deviceName := ReadBack(c.deviceName)), c);
  }

  lemma OneEntry(line: Line)
    ensures EntriesOf([line]) == if line.Entry? then [line] else []
  {
  }

  lemma SectionEntries(comments: seq<string>, line: Line)
    ensures EntriesOf(Section(comments, line)) == if line.Entry? then [line] else []
  {
    EntriesAppended(CommentsOf(comments), [line]);
    NoEntries(CommentsOf(comments));
    OneEntry(line);
  }

  lemma SettingEntries(comments: seq<string>, key: string, value: Option<string>, otherwise: string)
    ensures EntriesOf(Section(comments, Setting(key, value, otherwise))) == Optional(key, value)
  {
    SectionEntries(comments, Setting(key, value, otherwise));
  }

  lemma BusIdEntries(id: Option<U32>, comments: seq<string>)
    ensures EntriesOf(BusIdSection(id, comments)) == Optional("bus_id", HexText(id, 8))
  {
    if id.Some? {
      SectionEntries(comments, BusIdEntry(id.value));
      EntriesAppended(Section(comments, BusIdEntry(id.value)), [BLANK]);
      OneEntry(BLANK);
    }
  }

  lemma FourEntries(a: seq<Line>, b: seq<Line>, c: seq<Line>, d: seq<Line>)
    ensures EntriesOf(a + b + c + d) == EntriesOf(a) + EntriesOf(b) + EntriesOf(c) + EntriesOf(d)
  {
    EntriesAppended(a, b);
    EntriesAppended(a + b, c);
    EntriesAppended(a + b + c, d);
  }

  lemma TopEntries(c: FileConfig, w: Comments)
    ensures EntriesOf(RenderTop(c, w)) ==
      Optional("heartbeat_master", HexText(c.heartbeatMaster, 6)) + Optional("bus_id", HexText(c.busId, 8))
      + [Entry("device_type", TypeName(c.deviceType))] + [Entry("device_name", c.deviceName)]
  {
    var hb := Section(w.header, Setting("heartbeat_master", HexText(c.heartbeatMaster, 6), w.noHeartbeat));
    SettingEntries(w.header, "heartbeat_master", HexText(c.heartbeatMaster, 6), w.noHeartbeat);
    EntriesAppended(hb, [BLANK]);
    OneEntry(BLANK);
    BusIdEntries(c.busId, w.aboutBusId);
    var dt, dn := Entry("device_type", TypeName(c.deviceType)), Entry("device_name", c.deviceName);
    SectionEntries(w.aboutType, dt);
    SectionEntries(w.aboutName, dn);
    FourEntries(hb + [BLANK], BusIdSection(c.busId, w.aboutBusId), Section(w.aboutType, dt), Section(w.aboutName, dn));
  }

  lemma BottomEntries(c: FileConfig, w: Comments)
    ensures EntriesOf(RenderBottom(c, w)) == Optional("cache_dir", c.cacheDir) + Optional("listen", c.listen)
      + Optional("api_listen", c.apiListen) + Optional("api_token", c.apiToken)
  {
    SettingEntries(w.aboutCache, "cache_dir", c.cacheDir, w.noCache);
    SettingEntries(w.aboutListen, "listen", c.listen, w.noListen);
    SettingEntries(w.aboutApi, "api_listen", c.apiListen, w.noApiListen);
    OneEntry(Setting("api_token", c.apiToken, w.noApiToken));
    FourEntries(Section(w.aboutCache, Setting("cache_dir", c.cacheDir, w.noCache)),
                Section(w.aboutListen, Setting("listen", c.listen, w.noListen)),
                Section(w.aboutApi, Setting("api_listen", c.apiListen, w.noApiListen)),
                [Setting("api_token", c.apiToken, w.noApiToken)]);
  }

  lemma RenderedEntries(c: FileConfig, w: Comments)
    ensures EntriesOf(RenderLines(c, w)) == Entries(c)
  {
    EntriesAppended(RenderTop(c, w), RenderBottom(c, w));
    TopEntries(c, w);
    BottomEntries(c, w);
  }

  lemma TopKeysArePlain()
    ensures IsPlainKey("heartbeat_master") && IsPlainKey("bus_id") && IsPlainKey("device_type") && IsPlainKey("device_name")
  {
  }

  lemma BottomKeysArePlain()
    ensures IsPlainKey("cache_dir") && IsPlainKey("listen") && IsPlainKey("api_listen") && IsPlainKey("api_token")
  {
  }

  lemma SectionLines(comments: seq<string>, line: Line)
    requires AreCommentLines(comments) && IsFileLine(line)
    ensures AreFileLines(Section(comments, line))
  {
  }

  lemma SettingLines(comments: seq<string>, key: string, value: Option<string>, otherwise: string)
    requires AreCommentLines(comments) && IsPlainKey(key) && NoNewline(value) && IsCommentLine(otherwise)
    ensures AreFileLines(Section(comments, Setting(key, value, otherwise)))
  {
  }

  lemma NumbersHaveNoNewline(n: Option<U32>, w: nat)
    ensures NoNewline(HexText(n, w))
  {
  }

  lemma TopLines(c: FileConfig, w: Comments)
    requires AreComments(w) && OneLineEach(c)
    ensures AreFileLines(RenderTop(c, w))
  {
    TopKeysArePlain();
    NumbersHaveNoNewline(c.heartbeatMaster, 6);
    NumbersHaveNoNewline(c.busId, 8);
    SettingLines(w.header, "heartbeat_master", HexText(c.heartbeatMaster, 6), w.noHeartbeat);
    if c.busId.Some? {
      SectionLines(w.aboutBusId, BusIdEntry(c.busId.value));
    }
    SectionLines(w.aboutType, Entry("device_type", TypeName(c.deviceType)));
    SectionLines(w.aboutName, Entry("device_name", c.deviceName));
  }

  lemma BottomLines(c: FileConfig, w: Comments)
    requires AreComments(w) && OneLineEach(c)
    ensures AreFileLines(RenderBottom(c, w))
  {
    BottomKeysArePlain();
  }

  lemma RenderedLines(c: FileConfig, w: Comments)
    requires AreComments(w) && OneLineEach(c)
    ensures AreFileLines(RenderLines(c, w))
  {
    TopLines(c, w);
    BottomLines(c, w);
  }

  /** What the parser makes of a printed configuration whose texts are single lines: the configuration with
      each text as it comes back. */
  lemma PrintedParses(c: FileConfig, w: Comments)
    requires AreComments(w) && OneLineEach(c) && HasOurBusId(c)
    ensures ParseSpec(Render(c, w)) == Ok(Cleaned(c))
  {
    RenderedLines(c, w);
    RenderedEntries(c, w);
    SetEntries(c);
    FileParse(EMPTY, RenderLines(c, w));
  }

  // ----- what the parser can return

  predicate PlainDraft(d: Draft) {
    '\n' !in d.deviceName && NoNewline(d.cacheDir) && NoNewline(d.listen) && NoNewline(d.apiListen) &&
    NoNewline(d.apiToken) && (d.busId.Some? ==> IsOurBusId(d.busId.value))
  }

  lemma {:induction false} SplitOnceParts(s: string)
    ensures SplitOnce(s).Some? ==> forall c :: c in SplitOnce(s).value.1 ==> c in s
  {
    if s != "" && s[0] != '=' {
      SplitOnceParts(s[1..]);
    }
  }

  lemma SetKeepsPlain(d: Draft, key: string, value: string, n: nat)
    requires PlainDraft(d) && '\n' !in value
    ensures Set(d, key, value, n).Ok? ==> PlainDraft(Set(d, key, value, n).value)
  {
    if key == "bus_id" {
      SetBusIdKeepsPlain(d, value, n);
    } else if key == "heartbeat_master" || key == "device_type" {
      SetNoTextKeepsPlain(d, key, value, n);
    } else {
      SetTextKeepsPlain(d, key, value, n);
    }
  }

  lemma SetBusIdKeepsPlain(d: Draft, value: string, n: nat)
    requires PlainDraft(d)
    ensures Set(d, "bus_id", value, n).Ok? ==> PlainDraft(Set(d, "bus_id", value, n).value)
  {
  }

  lemma SetNoTextKeepsPlain(d: Draft, key: string, value: string, n: nat)
    requires PlainDraft(d) && (key == "heartbeat_master" || key == "device_type")
    ensures Set(d, key, value, n).Ok? ==> PlainDraft(Set(d, key, value, n).value)
  {
  }

  lemma SetTextKeepsPlain(d: Draft, key: string, value: string, n: nat)
    requires PlainDraft(d) && '\n' !in value
    requires key != "bus_id" && key != "heartbeat_master" && key != "device_type"
    ensures PlainDraft(Set(d, key, value, n).value)
  {
  }

  lemma LineKeepsPlain(d: Draft, line: string, n: nat)
    requires PlainDraft(d) && '\n' !in line
    ensures ParseLine(d, line, n).Ok? ==> PlainDraft(ParseLine(d, line, n).value)
  {
    var content := Content(line);
    BeforeCommentShortens(line);
    TrimShortens(BeforeComment(line));
    SplitOnceParts(content);
    match SplitOnce(content)
    case None =>
    case Some((key, value)) =>
      ValueShortens(value);
      SetKeepsPlain(d, Trim(key), Value(value), n);
  }

  lemma {:induction false} LinesKeepPlain(d: Draft, lines: seq<string>, n: nat)
    requires PlainDraft(d) && forall i :: 0 <= i < |lines| ==> '\n' !in lines[i]
    ensures ParseLines(d, lines, n).Ok? ==> PlainDraft(ParseLines(d, lines, n).value)
    decreases |lines|
  {
    if lines != [] {
      LineKeepsPlain(d, lines[0], n);
      match ParseLine(d, lines[0], n)
      case Err(_) =>
      case Ok(m) => LinesKeepPlain(m, lines[1..], n + 1);
    }
  }

  /** Whatever the parser returns has a BusID of ours, if any, and texts of one line each. */
  lemma ParsedIsPlain(raw: string)
    requires ParseSpec(raw).Ok?
    ensures OneLineEach(ParseSpec(raw).value) && HasOurBusId(ParseSpec(raw).value)
  {
    Text.SplitPiecesFree(raw, '\n');
    PiecesParse(EMPTY, raw);
    LinesKeepPlain(EMPTY, Text.Split(raw, '\n'), 1);
  }

  // ----- the round trip

  predicate CleanOption(o: Option<string>) {
    o.Some? ==> o.value != "" && CleanText(o.value) && '\n' !in o.value
  }

  /** What the file can hold: a BusID of ours, and texts without comment characters, newlines, or spaces or
      quotes at their ends; the optional ones not empty. */
  predicate Clean(c: FileConfig) {
    HasOurBusId(c) && CleanText(c.deviceName) && '\n' !in c.deviceName &&
    CleanOption(c.cacheDir) && CleanOption(c.listen) && CleanOption(c.apiListen) && CleanOption(c.apiToken)
  }

  lemma KeptIff(o: Option<string>)
    requires NoNewline(o)
    ensures Kept(o) == o <==> CleanOption(o)
  {
    if o.Some? {
      ReadBackIff(o.value);
    }
  }

  /** The parser undoes the printer exactly for clean configurations. */
  lemma RoundTrip(c: FileConfig, w: Comments)
    requires AreComments(w)
    ensures ParseSpec(Render(c, w)) == Ok(c) <==> Clean(c)
  {
    if ParseSpec(Render(c, w)) == Ok(c) {
      ParsedIsPlain(Render(c, w));
    }
    if OneLineEach(c) && HasOurBusId(c) {
      PrintedParses(c, w);
      ReadBackIff(c.deviceName);
      KeptIff(c.cacheDir);
      KeptIff(c.listen);
      KeptIff(c.apiListen);
      KeptIff(c.apiToken);
    }
  }

  // ----- the BusID added to an older file

  lemma BusIdLinesParse(d: Draft, id: U32, w: Comments, n: nat)
    requires AreComments(w) && IsOurBusId(id)
    ensures ParseLines(d, Text.Split(Unlines(Section(w.aboutBusId, BusIdEntry(id))), '\n'), n) == Ok(d.(busId := Some(id)))
  {
    var lines := Section(w.aboutBusId, BusIdEntry(id));
    TopKeysArePlain();
    NumeralIsRead(id, 8);
    SectionLines(w.aboutBusId, BusIdEntry(id));
    SplitUnlines(lines);
    SectionEntries(w.aboutBusId, BusIdEntry(id));
    EntriesParse(d, lines, n);
    assert [BusIdEntry(id)] + [] == [BusIdEntry(id)];
    SetFirst(d, BusIdEntry(id), [], d.(busId := Some(id)));
    ParseAppended(d, Texts(lines), [""], n);
    CommentLineAlone(d.(busId := Some(id)), "", n + |lines|);
  }

  /** The line added to a file changes its BusID and nothing else, whatever the file is, ended in a newline
      or not; a file that does not parse still does not, for the same reason. */
  lemma AddedBusId(raw: string, id: U32, w: Comments)
    requires AreComments(w) && IsOurBusId(id)
    ensures ParseSpec(raw + BusIdText(id, w)) ==
      match ParseSpec(raw)
      case Ok(c) => Ok(c.(busId := Some(id)))
      case Err(e) => Err(e)
  {
    var tail := Unlines(Section(w.aboutBusId, BusIdEntry(id)));
    assert raw + BusIdText(id, w) == raw + "\n" + tail;
    PiecesParse(EMPTY, raw);
    PiecesParse(EMPTY, raw + "\n" + tail);
    SplitAppended(raw, tail);
    AddedLines(EMPTY, Text.Split(raw, '\n'), id, w);
  }

  lemma AddedLines(d: Draft, pieces: seq<string>, id: U32, w: Comments)
    requires AreComments(w) && IsOurBusId(id)
    ensures ParseLines(d, pieces + Text.Split(Unlines(Section(w.aboutBusId, BusIdEntry(id))), '\n'), 1) ==
      match ParseLines(d, pieces, 1)
      case Ok(m) => Ok(m.(busId := Some(id)))
      case Err(e) => Err(e)
  {
    var added := Text.Split(Unlines(Section(w.aboutBusId, BusIdEntry(id))), '\n');
    ParseAppended(d, pieces, added, 1);
    match ParseLines(d, pieces, 1)
    case Err(_) =>
    case Ok(m) => BusIdLinesParse(m, id, w, 1 + |pieces|);
  }

  /** The class of the BusIDs this program makes up is one it can have. */
  lemma GeneratedIsOurs(low: nat)
    requires 0 < low < 0x4_0000
    ensures IsOurBusId(0x1C * 0x100_0000 + low)
  {
  }

  /** The names a device type goes by, whatever their case, and the one it is printed with. */
  lemma TypesAreNamed(d: Draft, value: string, n: nat)
    ensures var r := Set(d, "device_type", value, n);
      if LowerCase(value) in ["can", "socketcan"] then r == Ok(d.(deviceType := Some(Can)))
      else if LowerCase(value) == "usb" then r == Ok(d.(deviceType := Some(Usb)))
      else r == Err(BadDeviceType(n))
    ensures TypeName(Can) == "can" && TypeName(Usb) == "usb"
  {
  }

  /** A comment begins at the first '#' or ';', wherever it is. */
  lemma {:induction false} CommentBegins(s: string, i: nat)
    requires i <= |s| && '#' !in s[..i] && ';' !in s[..i] && (i < |s| ==> s[i] == '#' || s[i] == ';')
    ensures BeforeComment(s) == s[..i]
  {
    if i > 0 {
      assert s[0] in s[..i];
      assert s[1..][..i - 1] == s[..i][1..];
      CommentBegins(s[1..], i - 1);
    }
  }

  /** An address or a BusID may be written with "0x" before it. */
  lemma PrefixIsIgnored(v: string)
    ensures Without0x("0x" + v) == Without0x(v)
    ensures !(|v| >= 2 && v[..2] == "0x") ==> Without0x(v) == v
  {
    assert ("0x" + v)[..2] == "0x" && ("0x" + v)[2..] == v;
  }
}
