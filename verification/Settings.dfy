/** The `config.ini` file: its parser, its printer, and the BusID line added to older files. */
module Settings {
  import opened Prelude
  import opened Text

  datatype DeviceType = Can | Usb

  const MAX_U32: nat := 0xFFFF_FFFF

  type U32 = n: nat | n <= MAX_U32

  datatype FileConfig = FileConfig(
    heartbeatMaster: Option<U32>,
    busId: Option<U32>,
    deviceType: DeviceType,
    deviceName: string,
    cacheDir: Option<string>,
    listen: Option<string>,
    apiListen: Option<string>,
    apiToken: Option<string>)

  datatype Error =
    | NotKeyValue(line: nat)
    | BadHeartbeatMaster(line: nat)
    | BadBusId(line: nat)
    | BadDeviceType(line: nat)
    | NoDeviceType

  /** A BusID this program can have: five class bits, eighteen low bits, and no class that firmware treats
      specially. */
  predicate IsOurBusId(id: U32) {
    id / 0x2000_0000 == 0 && id / 0x4_0000 % 64 == 0 &&
    var class_ := id / 0x100_0000; 0x09 < class_ && class_ != 0x1F
  }

  // ----- text

  predicate IsComment(c: char) {
    c == '#' || c == ';'
  }

  function UnquoteStart(s: string): string {
    if s != "" && s[0] == '"' then UnquoteStart(s[1..]) else s
  }

  function UnquoteEnd(s: string): string {
    if s != "" && s[|s| - 1] == '"' then UnquoteEnd(s[..|s| - 1]) else s
  }

  /** Without the quotes at either end, however many. */
  function Unquoted(s: string): string {
    UnquoteStart(UnquoteEnd(s))
  }

  /** What comes before a comment. */
  function BeforeComment(s: string): string {
    if s == "" || IsComment(s[0]) then "" else [s[0]] + BeforeComment(s[1..])
  }

  /** Without the "0x" at the start, however often it is there. */
  function Without0x(s: string): string {
    if |s| >= 2 && s[..2] == "0x" then Without0x(s[2..]) else s
  }

  /** Around the first '=', if there is one. */
  function SplitOnce(s: string): Option<(string, string)> {
    if s == "" then None
    else if s[0] == '=' then Some(("", s[1..]))
    else
      match SplitOnce(s[1..])
      case None => None
      case Some((k, v)) => Some(([s[0]] + k, v))
  }

  /** `str::lines`: without the line ends, which are "\n" or "\r\n"; a last line needs none. */
  function Lines(s: string): seq<string> {
    var pieces := Text.Split(s, '\n');
    var n := |pieces| - 1;
    Ended(pieces[..n]) + if pieces[n] == "" then [] else [pieces[n]]
  }

  /** Lines that ended in "\n", without the "\r" before it. */
  function Ended(pieces: seq<string>): (lines: seq<string>)
    ensures |lines| == |pieces|
  {
    seq(|pieces|, i requires 0 <= i < |pieces| => WithoutCr(pieces[i]))
  }

  function WithoutCr(s: string): string {
    if s != "" && s[|s| - 1] == '\r' then s[..|s| - 1] else s
  }

  // ----- the parser

  /** What has been read so far. */
  datatype Draft = Draft(
    heartbeatMaster: Option<U32>,
    busId: Option<U32>,
    deviceType: Option<DeviceType>,
    deviceName: string,
    cacheDir: Option<string>,
    listen: Option<string>,
    apiListen: Option<string>,
    apiToken: Option<string>)

  const EMPTY: Draft := Draft(None, None, None, "", None, None, None, None)

  /** The part of a line that counts. */
  function Content(line: string): string {
    Trim(BeforeComment(line))
  }

  /** A value as it is taken from the right of the '='. */
  function Value(s: string): string {
    Trim(Unquoted(Trim(s)))
  }

  function TypeNamed(name: string): Option<DeviceType> {
    if name == "can" || name == "socketcan" then Some(Can)
    else if name == "usb" then Some(Usb)
    else None
  }

  /** Take in one key's value. Unknown keys and empty optional values are ignored. */
  function Set(d: Draft, key: string, value: string, line: nat): Result<Draft, Error> {
    if key == "heartbeat_master" then
      (match FromHex(Without0x(value), MAX_U32)
       case Some(v) => Ok(d.(heartbeatMaster := Some(v)))
       case None => Err(BadHeartbeatMaster(line)))
    else if key == "bus_id" then
      (match FromHex(Without0x(value), MAX_U32)
       case Some(v) => if IsOurBusId(v) then Ok(d.(busId := Some(v))) else Err(BadBusId(line))
       case None => Err(BadBusId(line)))
    else if key == "device_type" then
      (match TypeNamed(LowerCase(value))
       case Some(t) => Ok(d.(deviceType := Some(t)))
       case None => Err(BadDeviceType(line)))
    else if key == "device_name" then Ok(d.(deviceName := value))
    else if value == "" then Ok(d)
    else if key == "cache_dir" then Ok(d.(cacheDir := Some(value)))
    else if key == "listen" then Ok(d.(listen := Some(value)))
    else if key == "api_listen" then Ok(d.(apiListen := Some(value)))
    else if key == "api_token" then Ok(d.(apiToken := Some(value)))
    else Ok(d)
  }

  function ParseLine(d: Draft, line: string, n: nat): Result<Draft, Error> {
    var content := Content(line);
    if content == "" then Ok(d)
    else
      match SplitOnce(content)
      case None => Err(NotKeyValue(n))
      case Some((key, value)) => Set(d, Trim(key), Value(value), n)
  }

  /** The lines from number `n` on, taken into `d`. */
  function ParseLines(d: Draft, lines: seq<string>, n: nat): Result<Draft, Error>
    decreases |lines|
  {
    if lines == [] then Ok(d)
    else
      match ParseLine(d, lines[0], n)
      case Err(e) => Err(e)
      case Ok(next) => ParseLines(next, lines[1..], n + 1)
  }

  function Finished(d: Draft): Result<FileConfig, Error> {
    match d.deviceType
    case None => Err(NoDeviceType)
    case Some(t) =>
      Ok(FileConfig(d.heartbeatMaster, d.busId, t, d.deviceName, d.cacheDir, d.listen, d.apiListen, d.apiToken))
  }

  function ParseSpec(raw: string): Result<FileConfig, Error> {
    match ParseLines(EMPTY, Lines(raw), 1)
    case Err(e) => Err(e)
    case Ok(d) => Finished(d)
  }

  /** Parse the file. Blank lines, comments and unknown keys are ignored; the last line for a key counts. */
  method Parse(raw: string) returns (r: Result<FileConfig, Error>)
    ensures r == ParseSpec(raw)
  {
    var lines := Lines(raw);
    var d := EMPTY;
    for i := 0 to |lines|
      invariant ParseLines(EMPTY, lines, 1) == ParseLines(d, lines[i..], i + 1)
    {
      match ParseLine(d, lines[i], i + 1)
      case Err(e) => return Err(e);
      case Ok(next) => d := next;
      assert lines[i..][1..] == lines[i + 1..];
    }
    r := Finished(d);
  }

  // ----- the printer

  /** The comments the printer writes around the settings, and in place of one that is not set. */
  datatype Comments = Comments(
    header: seq<string>, aboutBusId: seq<string>, aboutType: seq<string>, aboutName: seq<string>,
    aboutCache: seq<string>, aboutListen: seq<string>, aboutApi: seq<string>,
    noHeartbeat: string, noCache: string, noListen: string, noApiListen: string, noApiToken: string)

  predicate IsCommentLine(line: string) {
    '\n' !in line && (line == "" || IsComment(line[0]))
  }

  predicate AreCommentLines(lines: seq<string>) {
    forall i :: 0 <= i < |lines| ==> IsCommentLine(lines[i])
  }

  /** Every line is blank or a comment; how the comments are worded makes no difference. */
  predicate AreComments(w: Comments) {
    AreCommentLines(w.header) && AreCommentLines(w.aboutBusId) && AreCommentLines(w.aboutType) &&
    AreCommentLines(w.aboutName) && AreCommentLines(w.aboutCache) && AreCommentLines(w.aboutListen) &&
    AreCommentLines(w.aboutApi) && IsCommentLine(w.noHeartbeat) && IsCommentLine(w.noCache) &&
    IsCommentLine(w.noListen) && IsCommentLine(w.noApiListen) && IsCommentLine(w.noApiToken)
  }

  /** A line of the file: a comment, or a key with its value. */
  datatype Line = Comment(text: string) | Entry(key: string, value: string)

  function TextOf(line: Line): string {
    match line
    case Comment(text) => text
    case Entry(key, value) => key + " = " + value
  }

  function CommentsOf(lines: seq<string>): (r: seq<Line>)
    ensures |r| == |lines| && forall i :: 0 <= i < |r| ==> r[i] == Comment(lines[i])
  {
    seq(|lines|, i requires 0 <= i < |lines| => Comment(lines[i]))
  }

  /** A key's line, or the commented-out line that stands for it. */
  function Setting(key: string, value: Option<string>, otherwise: string): Line {
    match value
    case Some(v) => Entry(key, v)
    case None => Comment(otherwise)
  }

  function HexText(n: Option<U32>, w: nat): Option<string> {
    match n
    case Some(v) => Some(Text.Hex(v, w))
    case None => None
  }

  function TypeName(t: DeviceType): string {
    match t
    case Can => "can"
    case Usb => "usb"
  }

  const BLANK: Line := Comment("")

  function BusIdEntry(id: U32): Line {
    Entry("bus_id", Text.Hex(id, 8))
  }

  /** Comments and the line they are about. */
  function Section(comments: seq<string>, line: Line): seq<Line> {
    CommentsOf(comments) + [line]
  }

  function BusIdSection(id: Option<U32>, comments: seq<string>): seq<Line> {
    match id
    case Some(v) => Section(comments, BusIdEntry(v)) + [BLANK]
    case None => []
  }

  /** The file's lines, down to the device name. */
  function RenderTop(c: FileConfig, w: Comments): seq<Line> {
    Section(w.header, Setting("heartbeat_master", HexText(c.heartbeatMaster, 6), w.noHeartbeat))
    + [BLANK]
    + BusIdSection(c.busId, w.aboutBusId)
    + Section(w.aboutType, Entry("device_type", TypeName(c.deviceType)))
    + Section(w.aboutName, Entry("device_name", c.deviceName))
  }

  function RenderBottom(c: FileConfig, w: Comments): seq<Line> {
    Section(w.aboutCache, Setting("cache_dir", c.cacheDir, w.noCache))
    + Section(w.aboutListen, Setting("listen", c.listen, w.noListen))
    + Section(w.aboutApi, Setting("api_listen", c.apiListen, w.noApiListen))
    + [Setting("api_token", c.apiToken, w.noApiToken)]
  }

  /** The file's lines. */
  function RenderLines(c: FileConfig, w: Comments): seq<Line> {
    RenderTop(c, w) + RenderBottom(c, w)
  }

  function Unlines(lines: seq<Line>): string {
    if lines == [] then "" else TextOf(lines[0]) + "\n" + Unlines(lines[1..])
  }

  function Render(c: FileConfig, w: Comments): string {
    Unlines(RenderLines(c, w))
  }

  /** What is appended to a file that has no BusID. */
  function BusIdText(id: U32, w: Comments): string {
    "\n" + Unlines(Section(w.aboutBusId, BusIdEntry(id)))
  }
}
