/** Device identities: firmware and property strings, of several devices at once. */
module Identities {
  import opened Prelude
  import opened Tab
  import opened WaiterLog
  import opened Strings
  import opened Discovery
  import opened FakeDevice
  import opened Enumeration
  import Text

  datatype Identity = Identity(article: Bytes, serial: Bytes, revision: Bytes, name: Bytes, firmware: string)

  // ----- what one device's identity is

  /** Unicode white space, among the characters a byte can be. */
  predicate IsSpace(b: byte) {
    0x09 <= b <= 0x0D || b == 0x20 || b == 0x85 || b == 0xA0
  }

  function TrimStart(s: Bytes): Bytes {
    if s != [] && IsSpace(s[0]) then TrimStart(s[1..]) else s
  }

  function TrimEnd(s: Bytes): Bytes {
    if s != [] && IsSpace(s[|s| - 1]) then TrimEnd(s[..|s| - 1]) else s
  }

  function Trim(s: Bytes): Bytes {
    TrimEnd(TrimStart(s))
  }

  /** A revision that is blank is taken from the fifth character of the serial number. */
  function Assembled(article: Bytes, serial: Bytes, name: Bytes, revision: Bytes, firmware: string): Identity {
    Identity(article, serial, RevisionOr(revision, serial), name, firmware)
  }

  function RevisionOr(revision: Bytes, serial: Bytes): Bytes {
    if revision != [] then revision else if |serial| > 4 then [serial[4]] else []
  }

  function FirmwareText(major: nat, minor: nat): string {
    Text.Dec(major) + "." + Text.Dec(minor)
  }

  function PropSpec(s: Schema, catalog: Catalog, n: byte): Bytes {
    Trim(StringSpec(s, catalog, At(s.propSids, n, 0)))
  }

  /** A device's identity, by itself. */
  function IdentitySpec(s: Schema, catalog: Catalog): Identity {
    Assembled(PropSpec(s, catalog, 1), PropSpec(s, catalog, 2), PropSpec(s, catalog, 3), PropSpec(s, catalog, 4),
              FirmwareOf(s))
  }

  function FirmwareOf(s: Schema): string {
    FirmwareText(s.firmware0.major + s.firmware1.major, s.firmware0.minor + s.firmware1.minor)
  }

  // ----- what that is, without the functions that compute it

  /** A text without the white space at its ends. */
  predicate IsTrimOf(t: Bytes, s: Bytes) {
    (t == [] || (!IsSpace(t[0]) && !IsSpace(t[|t| - 1]))) &&
    exists a, b :: 0 <= a <= b <= |s| && t == s[a..b] && Blank(s[..a]) && Blank(s[b..])
  }

  predicate Blank(s: Bytes) {
    forall i :: 0 <= i < |s| ==> IsSpace(s[i])
  }

  /** A device's property, trimmed: the text of the string id it gives for it. */
  ghost predicate IsProperty(s: Schema, catalog: Catalog, n: byte, text: Bytes) {
    exists t :: IsString(s, catalog, At(s.propSids, n, 0), t) && IsTrimOf(text, t)
  }

  /** The revision property, or where that is blank the fifth character of the serial number, if it has five. */
  ghost predicate IsRevision(s: Schema, catalog: Catalog, serial: Bytes, revision: Bytes) {
    exists r :: IsProperty(s, catalog, 4, r) &&
      revision == if r != [] then r else if |serial| >= 5 then serial[4..5] else []
  }

  /** An identity is the device's own: properties 1, 2 and 3, the revision, and the sums of both firmware halves. */
  ghost predicate IsIdentity(s: Schema, catalog: Catalog, i: Identity) {
    IsProperty(s, catalog, 1, i.article) && IsProperty(s, catalog, 2, i.serial) && IsProperty(s, catalog, 3, i.name) &&
    IsRevision(s, catalog, i.serial, i.revision) &&
    i.firmware == Text.Dec(s.firmware0.major + s.firmware1.major) + "." + Text.Dec(s.firmware0.minor + s.firmware1.minor)
  }

  lemma {:induction false} TrimStartIs(s: Bytes) returns (a: nat)
    ensures a <= |s| && TrimStart(s) == s[a..] && Blank(s[..a]) && (a < |s| ==> !IsSpace(s[a]))
  {
    if s != [] && IsSpace(s[0]) {
      var n := TrimStartIs(s[1..]);
      a := n + 1;
      assert s[..a] == [s[0]] + s[1..][..n];
    } else {
      a := 0;
    }
  }

  lemma {:induction false} TrimEndIs(s: Bytes) returns (b: nat)
    ensures b <= |s| && TrimEnd(s) == s[..b] && Blank(s[b..]) && (b > 0 ==> !IsSpace(s[b - 1]))
  {
    if s != [] && IsSpace(s[|s| - 1]) {
      var n := |s| - 1;
      b := TrimEndIs(s[..n]);
      assert s[b..] == s[..n][b..] + [s[n]];
    } else {
      b := |s|;
    }
  }

  lemma TrimIs(s: Bytes)
    ensures IsTrimOf(Trim(s), s)
  {
    var a := TrimStartIs(s);
    var b := TrimEndIs(s[a..]);
    assert s[a..][..b] == s[a..a + b] && s[a..][b..] == s[a + b..];
    assert Trim(s) != [] ==> Trim(s)[0] == s[a];
  }

  lemma PropertyIs(s: Schema, catalog: Catalog, n: byte)
    ensures IsProperty(s, catalog, n, PropSpec(s, catalog, n))
  {
    var sid := At(s.propSids, n, 0);
    StringIs(s, catalog, sid);
    TrimIs(StringSpec(s, catalog, sid));
  }

  lemma RevisionIs(s: Schema, catalog: Catalog, serial: Bytes, r: Bytes)
    requires IsProperty(s, catalog, 4, r)
    ensures IsRevision(s, catalog, serial, RevisionOr(r, serial))
  {
    assert |serial| >= 5 ==> serial[4..5] == [serial[4]];
  }

  lemma IdentityIs(s: Schema, catalog: Catalog)
    ensures IsIdentity(s, catalog, IdentitySpec(s, catalog))
  {
    PropertyIs(s, catalog, 1);
    PropertyIs(s, catalog, 2);
    PropertyIs(s, catalog, 3);
    PropertyIs(s, catalog, 4);
    RevisionIs(s, catalog, PropSpec(s, catalog, 2), PropSpec(s, catalog, 4));
    AssembledIs(s, catalog, PropSpec(s, catalog, 1), PropSpec(s, catalog, 2), PropSpec(s, catalog, 3),
                PropSpec(s, catalog, 4));
  }

  lemma AssembledIs(s: Schema, catalog: Catalog, article: Bytes, serial: Bytes, name: Bytes, r: Bytes)
    requires IsProperty(s, catalog, 1, article) && IsProperty(s, catalog, 2, serial) && IsProperty(s, catalog, 3, name)
    requires IsRevision(s, catalog, serial, RevisionOr(r, serial))
    ensures IsIdentity(s, catalog, Assembled(article, serial, name, r, FirmwareOf(s)))
  {
  }

  // ----- several devices

  /** The devices at these addresses are on the bus. */
  ghost predicate AllMeet(disc: Disc, addrs: seq<Addr>, dev: Addr -> Schema) {
    forall d :: 0 <= d < |addrs| ==> dev(addrs[d]).addr == addrs[d] && Meets(disc, dev(addrs[d]))
  }

  ghost predicate EachAnswered(gaveUp: set<string>, addrs: seq<Addr>, dev: Addr -> Schema) {
    forall d :: 0 <= d < |addrs| ==> AllAnswered(gaveUp, dev(addrs[d]))
  }

  lemma FewerGivenUpEach(a: set<string>, b: set<string>, addrs: seq<Addr>, dev: Addr -> Schema)
    requires a <= b && EachAnswered(b, addrs, dev)
    ensures EachAnswered(a, addrs, dev)
  {
  }

  function FirmwareTargets(addrs: seq<Addr>): (targets: seq<(Addr, Request)>)
    requires Distinct(addrs)
    ensures |targets| == 2 * |addrs| && Asks(targets)
    ensures forall k :: 0 <= k < |targets| ==> targets[k] == (addrs[k / 2], Device(OP_FIRMWARE, k % 2))
  {
    var targets := seq(2 * |addrs|, k requires 0 <= k < 2 * |addrs| => (addrs[k / 2], Device(OP_FIRMWARE, k % 2)));
    assert forall i, j :: 0 <= i < j < |targets| ==> i / 2 != j / 2 || i % 2 != j % 2;
    targets
  }

  /** Properties 1 to 4: article, serial, name, revision. */
  function PropTargets(addrs: seq<Addr>): (targets: seq<(Addr, Request)>)
    requires Distinct(addrs)
    ensures |targets| == 4 * |addrs| && Asks(targets)
    ensures forall k :: 0 <= k < |targets| ==> targets[k] == (addrs[k / 4], Device(OP_PROPERTY_ID, k % 4 + 1))
  {
    var targets :=
      seq(4 * |addrs|, k requires 0 <= k < 4 * |addrs| => (addrs[k / 4], Device(OP_PROPERTY_ID, k % 4 + 1)));
    assert forall i, j :: 0 <= i < j < |targets| ==> i / 4 != j / 4 || i % 4 != j % 4;
    targets
  }

  function WordAt2(r: Option<Bytes>): Option<Word> {
    if r.Some? && |r.value| >= 4 then Some(U16(r.value[2], r.value[3])) else None
  }

  function ByteOr0(r: Option<Bytes>, i: nat): byte {
    if r.Some? && i < |r.value| then r.value[i] else 0
  }

  /** The firmware versions of several devices, each the sum of the device's two firmware words. */
  method FetchFirmware(disc: Disc, addrs: seq<Addr>, ghost dev: Addr -> Schema) returns (texts: seq<string>)
    requires disc.Valid() && Distinct(addrs) && AllMeet(disc, addrs, dev)
    modifies disc, disc.waiter
    ensures disc.Valid() && Onward(old(disc.Now()), disc.Now()) && |texts| == |addrs|
    ensures EachAnswered(disc.gaveUp, addrs, dev) ==>
      forall d :: 0 <= d < |addrs| ==> texts[d] == FirmwareOf(dev(addrs[d]))
  {
    ghost var log := disc.waiter.log;
    var targets := FirmwareTargets(addrs);
    var fw := disc.AskAll(targets);
    texts := FirmwareTexts(fw);
    if EachAnswered(disc.gaveUp, addrs, dev) {
      FirmwaresRead(disc, addrs, dev, fw, texts, |log|);
    }
  }

  /** One version for each two replies. */
  function FirmwareTexts(fw: seq<Option<Bytes>>): (texts: seq<string>)
    ensures |texts| == |fw| / 2 && forall d :: 0 <= d < |texts| ==> texts[d] == FirmwareIn(fw[2 * d], fw[2 * d + 1])
  {
    seq(|fw| / 2, d requires 0 <= d < |fw| / 2 => FirmwareIn(fw[2 * d], fw[2 * d + 1]))
  }

  lemma FirmwaresRead(disc: Disc, addrs: seq<Addr>, dev: Addr -> Schema, fw: seq<Option<Bytes>>, texts: seq<string>,
                      from: nat)
    requires Distinct(addrs) && AllMeet(disc, addrs, dev) && EachAnswered(disc.gaveUp, addrs, dev)
    requires Replied(disc.waiter, from, FirmwareTargets(addrs), fw, disc.retries)
    requires Lost(FirmwareTargets(addrs), fw) <= disc.gaveUp
    requires texts == FirmwareTexts(fw)
    ensures forall d :: 0 <= d < |addrs| ==> texts[d] == FirmwareOf(dev(addrs[d]))
  {
    forall d | 0 <= d < |addrs|
      ensures texts[d] == FirmwareOf(dev(addrs[d]))
    {
      FirmwareRead(disc, dev(addrs[d]), addrs, fw, from, d);
    }
  }

  lemma FirmwareRead(disc: Disc, s: Schema, addrs: seq<Addr>, fw: seq<Option<Bytes>>, from: nat, d: nat)
    requires Meets(disc, s) && AllAnswered(disc.gaveUp, s) && Distinct(addrs) && d < |addrs| && addrs[d] == s.addr
    requires Replied(disc.waiter, from, FirmwareTargets(addrs), fw, disc.retries)
    requires Lost(FirmwareTargets(addrs), fw) <= disc.gaveUp
    ensures FirmwareIn(fw[2 * d], fw[2 * d + 1]) == FirmwareOf(s)
  {
    BatchTold(disc, s, FirmwareTargets(addrs), fw, from, disc.retries, 2 * d);
    BatchTold(disc, s, FirmwareTargets(addrs), fw, from, disc.retries, 2 * d + 1);
    FirmwareParts(s, fw[2 * d], fw[2 * d + 1]);
  }

  lemma FirmwareParts(s: Schema, r0: Option<Bytes>, r1: Option<Bytes>)
    requires r0 == Reply(s, Device(OP_FIRMWARE, 0)) && r1 == Reply(s, Device(OP_FIRMWARE, 1))
    ensures FirmwareIn(r0, r1) == FirmwareOf(s)
  {
  }

  function FirmwareIn(r0: Option<Bytes>, r1: Option<Bytes>): string {
    FirmwareText(ByteOr0(r0, 3) + ByteOr0(r1, 3), ByteOr0(r0, 2) + ByteOr0(r1, 2))
  }

  /** The string ids of several devices' properties: `None` unanswered; 0 is a valid id. */
  method FetchPropIds(disc: Disc, addrs: seq<Addr>, ghost dev: Addr -> Schema) returns (sids: seq<Option<Word>>)
    requires disc.Valid() && Distinct(addrs) && AllMeet(disc, addrs, dev)
    modifies disc, disc.waiter
    ensures disc.Valid() && Onward(old(disc.Now()), disc.Now()) && |sids| == 4 * |addrs|
    ensures EachAnswered(disc.gaveUp, addrs, dev) ==>
      forall k :: 0 <= k < |sids| ==> sids[k] == Some(PropIdOf(addrs, dev, k))
  {
    ghost var log := disc.waiter.log;
    var targets := PropTargets(addrs);
    var rs := disc.AskAll(targets);
    sids := seq(|rs|, k requires 0 <= k < |rs| => WordAt2(rs[k]));
    if EachAnswered(disc.gaveUp, addrs, dev) {
      forall k | 0 <= k < |sids|
        ensures sids[k] == Some(PropIdOf(addrs, dev, k))
      {
        PropIdRead(disc, dev(addrs[k / 4]), addrs, rs, |log|, k, k % 4 + 1);
      }
    }
  }

  /** The string id of property k of the devices, four to a device. */
  ghost function PropIdOf(addrs: seq<Addr>, dev: Addr -> Schema, k: nat): Word
    requires k < 4 * |addrs|
  {
    At(dev(addrs[k / 4]).propSids, k % 4 + 1, 0)
  }

  lemma PropIdRead(disc: Disc, s: Schema, addrs: seq<Addr>, rs: seq<Option<Bytes>>, from: nat, k: nat, n: byte)
    requires Meets(disc, s) && AllAnswered(disc.gaveUp, s) && Distinct(addrs)
    requires Replied(disc.waiter, from, PropTargets(addrs), rs, disc.retries)
    requires Lost(PropTargets(addrs), rs) <= disc.gaveUp
    requires k < 4 * |addrs| && addrs[k / 4] == s.addr && n as int == k % 4 + 1
    ensures WordAt2(rs[k]) == Some(At(s.propSids, n, 0))
  {
    BatchTold(disc, s, PropTargets(addrs), rs, from, disc.retries, k);
    WordReply(s, n);
  }

  lemma WordReply(s: Schema, n: byte)
    ensures WordAt2(Reply(s, Device(OP_PROPERTY_ID, n))) == Some(At(s.propSids, n, 0))
  {
    var w := At(s.propSids, n, 0);
    PropertyIdReply(s, n, w);
    WordIn(OP_PROPERTY_ID, n, w);
  }

  lemma PropertyIdReply(s: Schema, n: byte, w: Word)
    requires w == At(s.propSids, n, 0)
    ensures Reply(s, Device(OP_PROPERTY_ID, n)) == Some([OP_PROPERTY_ID, n, Lo(w), Hi(w)])
  {
  }

  lemma WordIn(op: byte, n: byte, w: Word)
    ensures WordAt2(Some([op, n, Lo(w), Hi(w)])) == Some(w)
  {
    WordParts(w);
  }

  /** The strings of some ids, of several devices: the catalog's, or fetched together. */
  method FetchStrings(disc: Disc, ids: seq<Option<Id>>, ghost addrs: seq<Addr>, ghost dev: Addr -> Schema)
      returns (texts: seq<Bytes>)
    requires disc.Valid() && AllMeet(disc, addrs, dev)
    requires forall k :: 0 <= k < |ids| && ids[k].Some? ==> ids[k].value.0 in addrs
    modifies disc, disc.waiter
    ensures disc.Valid() && Onward(old(disc.Now()), disc.Now()) && |texts| == |ids|
    ensures EachAnswered(disc.gaveUp, addrs, dev) ==>
      forall k :: 0 <= k < |ids| ==>
        texts[k] == if ids[k].Some? then StringSpec(dev(ids[k].value.0), disc.catalog, ids[k].value.1) else []
  {
    var live: seq<Id> := [];
    for k := 0 to |ids|
      invariant forall j :: 0 <= j < |live| ==> live[j].0 in addrs
      invariant forall j :: 0 <= j < k && ids[j].Some? && !disc.InCatalog(ids[j].value.1) ==> ids[j].value in live
    {
      if ids[k].Some? && !disc.InCatalog(ids[k].value.1) {
        live := live + [ids[k].value];
      }
    }
    forall j | 0 <= j < |live|
      ensures Tells(disc.waiter.allowed, live[j], disc.text(live[j])) && Ends(disc.text(live[j]))
    {
      DeviceTells(disc, dev(live[j].0), live[j].1);
    }
    var got := disc.FetchStrsWire(live);
    var fetched := Zipped(live, got);
    texts := seq(|ids|, k requires 0 <= k < |ids| =>
      if ids[k].None? then []
      else if disc.InCatalog(ids[k].value.1) then disc.catalog.value[ids[k].value.1]
      else At(fetched, ids[k].value, []));
    if EachAnswered(disc.gaveUp, addrs, dev) {
      forall j | 0 <= j < |live|
        ensures got[j] == Whole(disc.text(live[j]))
      {
        NotCutOff(disc, dev(live[j].0), live[j], got[j]);
      }
    }
  }

  lemma NotCutOff(disc: Disc, s: Schema, id: Id, got: Bytes)
    requires AllAnswered(disc.gaveUp, s) && s.addr == id.0
    ensures !CutOff(disc.gaveUp, id, Whole(disc.text(id)), got)
  {
  }

  /** A table of some ids' strings; a later one replaces an earlier one. */
  method Zipped(ids: seq<Id>, texts: seq<Bytes>) returns (m: map<Id, Bytes>)
    requires |ids| == |texts|
    ensures forall id :: id in m <==> id in ids
    ensures forall id :: id in m ==> exists j :: 0 <= j < |ids| && ids[j] == id && texts[j] == m[id]
  {
    m := map[];
    for n := 0 to |ids|
      invariant forall id :: id in m <==> id in ids[..n]
      invariant forall id :: id in m ==> exists j :: 0 <= j < n && ids[j] == id && texts[j] == m[id]
    {
      m := m[ids[n] := texts[n]];
      assert ids[..n + 1] == ids[..n] + [ids[n]];
    }
    assert ids[..|ids|] == ids;
  }

  /** The identities of several devices, fetched together. With every answerable request answered, on time or
      late, each is what the device's own answers make it, whichever other devices are fetched with it. */
  method FetchIdentities(disc: Disc, addrs: seq<Addr>, ghost dev: Addr -> Schema) returns (found: seq<Identity>)
    requires disc.Valid() && Distinct(addrs) && AllMeet(disc, addrs, dev)
    modifies disc, disc.waiter
    ensures disc.Valid() && Onward(old(disc.Now()), disc.Now()) && |found| == |addrs|
    ensures EachAnswered(disc.gaveUp, addrs, dev) ==> AreIdentities(addrs, dev, disc.catalog, found)
  {
    ghost var a := disc.Now();
    var fw := FetchFirmware(disc, addrs, dev);
    ghost var b := disc.Now();
    var sids := FetchPropIds(disc, addrs, dev);
    ghost var c := disc.Now();
    var ids := PropIds(addrs, sids);
    var texts := FetchStrings(disc, ids, addrs, dev);
    found := seq(|addrs|, d requires 0 <= d < |addrs| => IdentityAt(texts, fw, d));
    OnwardChain(a, b, c);
    OnwardChain(a, c, disc.Now());
    if EachAnswered(disc.gaveUp, addrs, dev) {
      FewerGivenUpEach(b.gaveUp, disc.gaveUp, addrs, dev);
      FewerGivenUpEach(c.gaveUp, disc.gaveUp, addrs, dev);
      IdentitiesRead(addrs, dev, disc.catalog, sids, texts, fw, found);
    }
  }

  /** Each identity is the device's own. */
  ghost predicate AreIdentities(addrs: seq<Addr>, dev: Addr -> Schema, catalog: Catalog, found: seq<Identity>) {
    |found| == |addrs| &&
    forall d :: 0 <= d < |addrs| ==>
      found[d] == IdentitySpec(dev(addrs[d]), catalog) && IsIdentity(dev(addrs[d]), catalog, found[d])
  }

  lemma IdentitiesRead(addrs: seq<Addr>, dev: Addr -> Schema, catalog: Catalog, sids: seq<Option<Word>>,
                       texts: seq<Bytes>, fw: seq<string>, found: seq<Identity>)
    requires |sids| == |texts| == 4 * |addrs| && |fw| == |found| == |addrs|
    requires forall d :: 0 <= d < |addrs| ==> found[d] == IdentityAt(texts, fw, d)
    requires forall k :: 0 <= k < |sids| ==> sids[k] == Some(PropIdOf(addrs, dev, k))
    requires forall k :: 0 <= k < |texts| ==> texts[k] == StringSpec(dev(addrs[k / 4]), catalog, PropIdOf(addrs, dev, k))
    requires forall d :: 0 <= d < |addrs| ==> fw[d] == FirmwareOf(dev(addrs[d]))
    ensures AreIdentities(addrs, dev, catalog, found)
  {
    forall k | 0 <= k < |texts|
      ensures Trim(texts[k]) == PropAt(addrs, dev, catalog, k)
    {
      PropRead(addrs, dev, catalog, sids, texts, k);
    }
    forall d | 0 <= d < |addrs|
      ensures found[d] == IdentitySpec(dev(addrs[d]), catalog) && IsIdentity(dev(addrs[d]), catalog, found[d])
    {
      IdentityRead(addrs, dev, catalog, texts, fw, d);
      IdentityIs(dev(addrs[d]), catalog);
    }
  }

  /** The properties' string ids, each with its device. */
  function PropIds(addrs: seq<Addr>, sids: seq<Option<Word>>): (ids: seq<Option<Id>>)
    requires |sids| == 4 * |addrs|
    ensures |ids| == |sids|
    ensures forall k :: 0 <= k < |ids| ==>
      ids[k] == (if sids[k].Some? then Some((addrs[k / 4], sids[k].value)) else None)
  {
    seq(|sids|, k requires 0 <= k < |sids| => if sids[k].Some? then Some((addrs[k / 4], sids[k].value)) else None)
  }

  function IdentityAt(texts: seq<Bytes>, fw: seq<string>, d: nat): Identity
    requires 4 * d + 3 < |texts| && d < |fw|
  {
    var t := texts[4 * d..4 * d + 4];
    Assembled(Trim(t[0]), Trim(t[1]), Trim(t[2]), Trim(t[3]), fw[d])
  }

  /** Property k of the devices, four to a device. */
  ghost function PropAt(addrs: seq<Addr>, dev: Addr -> Schema, catalog: Catalog, k: nat): Bytes
    requires k < 4 * |addrs|
  {
    PropSpec(dev(addrs[k / 4]), catalog, k % 4 + 1)
  }

  lemma PropRead(addrs: seq<Addr>, dev: Addr -> Schema, catalog: Catalog, sids: seq<Option<Word>>,
                 texts: seq<Bytes>, k: nat)
    requires |sids| == |texts| == 4 * |addrs| && k < |sids|
    requires sids[k] == Some(PropIdOf(addrs, dev, k))
    requires texts[k] == StringSpec(dev(addrs[k / 4]), catalog, sids[k].value)
    ensures Trim(texts[k]) == PropAt(addrs, dev, catalog, k)
  {
  }

  lemma IdentityRead(addrs: seq<Addr>, dev: Addr -> Schema, catalog: Catalog, texts: seq<Bytes>, fw: seq<string>,
                     d: nat)
    requires |texts| == 4 * |addrs| && |fw| == |addrs| && d < |addrs|
    requires fw[d] == FirmwareOf(dev(addrs[d]))
    requires forall k :: 0 <= k < |texts| ==> Trim(texts[k]) == PropAt(addrs, dev, catalog, k)
    ensures IdentityAt(texts, fw, d) == IdentitySpec(dev(addrs[d]), catalog)
  {
    PropsOf(addrs, dev, catalog, texts, d);
    AssembledFrom(dev(addrs[d]), catalog, texts[4 * d..4 * d + 4], fw[d]);
  }

  /** Four texts are a device's four properties. */
  predicate AreProps(s: Schema, catalog: Catalog, t: seq<Bytes>) {
    |t| == 4 && forall p :: 0 <= p < 4 ==> Trim(t[p]) == PropSpec(s, catalog, p + 1)
  }

  lemma PropsOf(addrs: seq<Addr>, dev: Addr -> Schema, catalog: Catalog, texts: seq<Bytes>, d: nat)
    requires |texts| == 4 * |addrs| && d < |addrs|
    requires forall k :: 0 <= k < |texts| ==> Trim(texts[k]) == PropAt(addrs, dev, catalog, k)
    ensures AreProps(dev(addrs[d]), catalog, texts[4 * d..4 * d + 4])
  {
  }

  lemma AssembledFrom(s: Schema, catalog: Catalog, t: seq<Bytes>, fw: string)
    requires AreProps(s, catalog, t) && fw == FirmwareOf(s)
    ensures Assembled(Trim(t[0]), Trim(t[1]), Trim(t[2]), Trim(t[3]), fw) == IdentitySpec(s, catalog)
  {
  }

  /** One device's identity. */
  method FetchIdentity(disc: Disc, addr: Addr, ghost s: Schema) returns (found: Identity)
    requires disc.Valid() && s.addr == addr && Meets(disc, s)
    modifies disc, disc.waiter
    ensures disc.Valid() && Onward(old(disc.Now()), disc.Now())
    ensures AllAnswered(disc.gaveUp, s) ==>
      found == IdentitySpec(s, disc.catalog) && IsIdentity(s, disc.catalog, found)
  {
    ghost var dev := (a: Addr) => s;
    var all := FetchIdentities(disc, [addr], dev);
    assert AllAnswered(disc.gaveUp, s) ==> EachAnswered(disc.gaveUp, [addr], dev);
    found := all[0];
  }

  // ----- bundled string tables

  /** A bundled string table, and the ids it is checked by. */
  datatype Entry = Entry(spotCheck: seq<Word>, strings: map<Word, Bytes>)

  /** The first `n` ids a table is checked by have the device's own strings. */
  predicate FitsTo(s: Schema, e: Entry, n: nat)
    requires n <= |e.spotCheck|
  {
    forall j :: 0 <= j < n ==> FitsAt(s, e, j)
  }

  predicate FitsAt(s: Schema, e: Entry, j: nat)
    requires j < |e.spotCheck|
  {
    e.spotCheck[j] in e.strings && e.strings[e.spotCheck[j]] == Whole(At(s.strings, e.spotCheck[j], []))
  }

  predicate Fits(s: Schema, e: Entry) {
    FitsTo(s, e, |e.spotCheck|)
  }

  /** A string the device has, or the part of it that came before a chunk that was given up. */
  ghost predicate AsFetched(gaveUp: set<string>, id: Id, whole: Bytes, text: Bytes) {
    text == whole || CutOff(gaveUp, id, whole, text)
  }

  /** The first `n` ids a table is checked by have passed. */
  ghost predicate Checked(gaveUp: set<string>, text: Id -> Bytes, addr: Addr, e: Entry, n: nat)
    requires n <= |e.spotCheck|
  {
    forall j :: 0 <= j < n ==>
      e.spotCheck[j] in e.strings &&
      AsFetched(gaveUp, (addr, e.spotCheck[j]), Whole(text((addr, e.spotCheck[j]))), e.strings[e.spotCheck[j]])
  }

  lemma CheckedOneMore(a: set<string>, b: set<string>, text: Id -> Bytes, addr: Addr, e: Entry, n: nat)
    requires a <= b && n < |e.spotCheck| && Checked(a, text, addr, e, n) && e.spotCheck[n] in e.strings
    requires AsFetched(b, (addr, e.spotCheck[n]), Whole(text((addr, e.spotCheck[n]))), e.strings[e.spotCheck[n]])
    ensures Checked(b, text, addr, e, n + 1)
  {
  }

  /** A table passes the check when each checked string is fetched under this loss of chunks. */
  predicate Passes(s: Schema, e: Entry, lost: map<Word, set<byte>>) {
    forall j :: 0 <= j < |e.spotCheck| ==>
      var sid := e.spotCheck[j];
      sid in e.strings && e.strings[sid] == FetchedUnder(At(s.strings, sid, []), sid, At(lost, sid, {}))
  }

  /** Each checked string is the device's, or the device's up to one of its chunks. */
  predicate CouldPass(s: Schema, e: Entry) {
    forall j :: 0 <= j < |e.spotCheck| ==>
      e.spotCheck[j] in e.strings && UpToChunk(Whole(At(s.strings, e.spotCheck[j], [])), e.strings[e.spotCheck[j]])
  }

  /** No checked string is the device's without its end, cut at the start of a chunk. */
  predicate NoneCut(s: Schema, e: Entry) {
    forall j :: 0 <= j < |e.spotCheck| && e.spotCheck[j] in e.strings ==>
      !ProperlyCut(Whole(At(s.strings, e.spotCheck[j], [])), e.strings[e.spotCheck[j]])
  }

  predicate CheckedEnd(s: Schema, e: Entry) {
    forall j :: 0 <= j < |e.spotCheck| ==> Ends(At(s.strings, e.spotCheck[j], []))
  }

  /** A loss under which a table passes, if there is one. */
  function LossFor(s: Schema, e: Entry): map<Word, set<byte>>
    requires CheckedEnd(s, e) && CouldPass(s, e)
  {
    map sid | sid in e.spotCheck :: LossOf(Whole(At(s.strings, sid, [])), e.strings[sid])
  }

  /** A table passes the check under some loss exactly when each checked string is the device's up to a chunk. */
  lemma PassesIff(s: Schema, e: Entry)
    requires CheckedEnd(s, e)
    ensures CouldPass(s, e) <==> exists lost: map<Word, set<byte>> :: Passes(s, e, lost)
  {
    forall lost: map<Word, set<byte>> | Passes(s, e, lost)
      ensures CouldPass(s, e)
    {
      forall j | 0 <= j < |e.spotCheck|
        ensures UpToChunk(Whole(At(s.strings, e.spotCheck[j], [])), e.strings[e.spotCheck[j]])
      {
        FetchedIff(At(s.strings, e.spotCheck[j], []), e.spotCheck[j], e.strings[e.spotCheck[j]]);
      }
    }
    if CouldPass(s, e) {
      var lost := LossFor(s, e);
      forall j | 0 <= j < |e.spotCheck|
        ensures var sid := e.spotCheck[j];
          e.strings[sid] == FetchedUnder(At(s.strings, sid, []), sid, At(lost, sid, {}))
      {
        var sid := e.spotCheck[j];
        FetchedIff(At(s.strings, sid, []), sid, e.strings[sid]);
        assert sid in lost;
      }
      assert Passes(s, e, lost);
    }
  }

  /** The spot check takes a table that differs from the device, under some loss, exactly when the table could
      pass and one of its checked strings lacks its end. */
  lemma SpotCheckIff(s: Schema, e: Entry)
    requires CheckedEnd(s, e)
    ensures (forall lost: map<Word, set<byte>> :: Passes(s, e, lost) ==> Fits(s, e)) <==>
      (NoneCut(s, e) || !CouldPass(s, e))
  {
    PassesIff(s, e);
    if CouldPass(s, e) {
      NoneCutFits(s, e);
    }
  }

  lemma NoneCutFits(s: Schema, e: Entry)
    requires CouldPass(s, e)
    ensures NoneCut(s, e) <==> Fits(s, e)
  {
    if Fits(s, e) {
      forall j | 0 <= j < |e.spotCheck|
        ensures !ProperlyCut(Whole(At(s.strings, e.spotCheck[j], [])), e.strings[e.spotCheck[j]])
      {
        assert FitsAt(s, e, j);
      }
    }
  }

  /** A table checked by one string that lacks its end passes when the next chunk is lost. */
  lemma CutPasses(s: Schema, sid: Word, part: Bytes)
    requires Ends(At(s.strings, sid, [])) && ProperlyCut(Whole(At(s.strings, sid, [])), part)
    ensures var e := Entry([sid], map[sid := part]);
      Passes(s, e, map[sid := {|part| / 4}]) && !Fits(s, e)
  {
    var e, lost := Entry([sid], map[sid := part]), map[sid := {|part| / 4}];
    FetchedIff(At(s.strings, sid, []), sid, part);
    assert At(lost, sid, {}) == LossOf(Whole(At(s.strings, sid, [])), part);
    assert Passes(s, e, lost);
    assert !FitsAt(s, e, 0);
  }

  /** The device has the string "abcdefgh", the table "abcd", and chunk 1 is lost. */
  lemma SpotCheckMisled(s: Schema, sid: Word)
    requires Whole(At(s.strings, sid, [])) == [97, 98, 99, 100, 101, 102, 103, 104]
    ensures var e := Entry([sid], map[sid := [97, 98, 99, 100]]);
      Passes(s, e, map[sid := {1}]) && !Fits(s, e)
  {
    var part: Bytes := [97, 98, 99, 100];
    assert |part| / 4 == 1;
    CutPasses(s, sid, part);
  }

  /** What the check of a live device lets through is what some loss lets through. */
  lemma CheckedCouldPass(gaveUp: set<string>, text: Id -> Bytes, s: Schema, e: Entry)
    requires Checked(gaveUp, text, s.addr, e, |e.spotCheck|)
    requires forall sid: Word :: text((s.addr, sid)) == At(s.strings, sid, [])
    ensures CouldPass(s, e)
    ensures NoneCut(s, e) ==> Fits(s, e)
  {
    forall j | 0 <= j < |e.spotCheck|
      ensures UpToChunk(Whole(At(s.strings, e.spotCheck[j], [])), e.strings[e.spotCheck[j]])
    {
      var id := (s.addr, e.spotCheck[j]);
      CutIsUpToChunk(gaveUp, id, Whole(text(id)), e.strings[e.spotCheck[j]]);
    }
    NoneCutFits(s, e);
  }

  lemma CutIsUpToChunk(gaveUp: set<string>, id: Id, whole: Bytes, text: Bytes)
    requires AsFetched(gaveUp, id, whole, text)
    ensures UpToChunk(whole, text)
  {
  }

  /** Check a table against the live device. One that passes has each checked string as the device has it,
      unless a chunk of that string was lost. */
  method FitsDevice(disc: Disc, addr: Addr, e: Entry, ghost s: Schema) returns (fits: bool)
    requires disc.Valid() && Meets(disc, s) && s.addr == addr
    modifies disc, disc.waiter
    ensures disc.Valid() && Onward(old(disc.Now()), disc.Now())
    ensures AllAnswered(disc.gaveUp, s) ==> fits == Fits(s, e)
    ensures fits ==> Checked(disc.gaveUp, disc.text, addr, e, |e.spotCheck|) && CouldPass(s, e)
    ensures fits && NoneCut(s, e) ==> Fits(s, e)
  {
    for n := 0 to |e.spotCheck|
      invariant disc.Valid() && Onward(old(disc.Now()), disc.Now())
      invariant Checked(disc.gaveUp, disc.text, addr, e, n)
      invariant AllAnswered(disc.gaveUp, s) ==> FitsTo(s, e, n)
    {
      ghost var a := disc.Now();
      var ok := Check(disc, addr, e, n, s);
      OnwardChain(old(disc.Now()), a, disc.Now());
      FewerGivenUp(a.gaveUp, disc.gaveUp, s);
      if !ok {
        return false;
      }
    }
    CheckedCouldPass(disc.gaveUp, disc.text, s, e);
    fits := true;
  }

  /** Check one string of a table. */
  method Check(disc: Disc, addr: Addr, e: Entry, n: nat, ghost s: Schema) returns (ok: bool)
    requires disc.Valid() && Meets(disc, s) && s.addr == addr && n < |e.spotCheck|
    modifies disc, disc.waiter
    ensures disc.Valid() && Onward(old(disc.Now()), disc.Now())
    ensures ok && Checked(old(disc.gaveUp), disc.text, addr, e, n) ==> Checked(disc.gaveUp, disc.text, addr, e, n + 1)
    ensures AllAnswered(disc.gaveUp, s) ==> ok == FitsAt(s, e, n)
  {
    var sid := e.spotCheck[n];
    if sid !in e.strings {
      return false;
    }
    var got := WireString(disc, addr, sid, s);
    ok := got == e.strings[sid];
    if ok && Checked(old(disc.gaveUp), disc.text, addr, e, n) {
      CheckedOneMore(old(disc.gaveUp), disc.gaveUp, disc.text, addr, e, n);
    }
  }

  /** A string fetched over the wire, whatever table there is. */
  method WireString(disc: Disc, addr: Addr, sid: Word, ghost s: Schema) returns (got: Bytes)
    requires disc.Valid() && Meets(disc, s) && s.addr == addr
    modifies disc, disc.waiter
    ensures disc.Valid() && Onward(old(disc.Now()), disc.Now())
    ensures AsFetched(disc.gaveUp, (addr, sid), Whole(disc.text((addr, sid))), got)
    ensures AllAnswered(disc.gaveUp, s) ==> got == Whole(At(s.strings, sid, []))
  {
    DeviceTells(disc, s, sid);
    var all := disc.FetchStrsWire([(addr, sid)]);
    got := all[0];
    if AllAnswered(disc.gaveUp, s) {
      NotCutOff(disc, s, (addr, sid), got);
    }
  }

  /** The first table that passes the check, if any. */
  method ResolveCatalog(disc: Disc, addr: Addr, candidates: seq<Entry>, ghost s: Schema) returns (found: Option<nat>)
    requires disc.Valid() && Meets(disc, s) && s.addr == addr
    modifies disc, disc.waiter
    ensures disc.Valid() && Onward(old(disc.Now()), disc.Now())
    ensures found.Some? ==> found.value < |candidates|
    ensures AllAnswered(disc.gaveUp, s) ==>
      match found
      case Some(i) => Fits(s, candidates[i]) && forall j :: 0 <= j < i ==> !Fits(s, candidates[j])
      case None => forall j :: 0 <= j < |candidates| ==> !Fits(s, candidates[j])
    ensures found.Some? ==>
      var e := candidates[found.value];
      Checked(disc.gaveUp, disc.text, addr, e, |e.spotCheck|) && CouldPass(s, e) && (NoneCut(s, e) ==> Fits(s, e))
  {
    for n := 0 to |candidates|
      invariant disc.Valid() && Onward(old(disc.Now()), disc.Now())
      invariant AllAnswered(disc.gaveUp, s) ==> forall j :: 0 <= j < n ==> !Fits(s, candidates[j])
    {
      ghost var a := disc.Now();
      var fits := FitsDevice(disc, addr, candidates[n], s);
      OnwardChain(old(disc.Now()), a, disc.Now());
      FewerGivenUp(a.gaveUp, disc.gaveUp, s);
      if fits {
        return Some(n);
      }
    }
    found := None;
  }
}
