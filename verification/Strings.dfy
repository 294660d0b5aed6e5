/** Strings four bytes at a time: how a fetch puts a device string together. */
module Strings {
  import opened Prelude
  import opened Tab
  import FakeDevice

  type Id = (Addr, Word)

  /** The part of a device string a fetch can see: up to its first NUL. */
  function Whole(text: Bytes): Bytes {
    FakeDevice.UpToNul(text)
  }

  /** A fetch ends on this string: one of its 256 chunks is short or holds a NUL. */
  predicate Ends(text: Bytes) {
    |Whole(text)| < 1024
  }

  function ChunkReply(sid: Word, seqNo: byte, text: Bytes): Bytes {
    [OP_STRING, Lo(sid), Hi(sid), seqNo] + FakeDevice.ChunkOf(text, seqNo)
  }

  /** One string being fetched. */
  datatype Fetch = Fetch(id: Id, s: Bytes, seqNo: byte, done: bool)

  /** The fetches still going on, in order. */
  function GoingOn(fetches: seq<Fetch>): (open: seq<nat>)
    ensures forall i, j :: 0 <= i < j < |open| ==> open[i] < open[j]
    ensures forall j :: 0 <= j < |open| ==> open[j] < |fetches| && !fetches[open[j]].done
    ensures forall i :: 0 <= i < |fetches| && !fetches[i].done ==> i in open
  {
    if fetches == [] then []
    else
      var n := |fetches| - 1;
      var rest := GoingOn(fetches[..n]);
      assert forall i :: 0 <= i < n ==> fetches[..n][i] == fetches[i];
      if fetches[n].done then rest else rest + [n]
  }

  predicate DistinctIds(fetches: seq<Fetch>) {
    forall i, j :: 0 <= i < j < |fetches| ==> fetches[i].id != fetches[j].id
  }

  predicate IsLast(r: Bytes) {
    |r| < 8 || 0 in Payload(r)
  }

  function Payload(r: Bytes): Bytes {
    if |r| <= 4 then [] else r[4..]
  }

  /** A fetch after its round: the reply's bytes are added, and the sequence number, a byte, goes on. */
  function NextFetch(f: Fetch, r: Option<Bytes>): Fetch {
    match r
    case None => f.(done := true)
    case Some(d) =>
      var s := f.s + FakeDevice.UpToNul(Payload(d));
      if IsLast(d) then f.(s := s, done := true) else f.(s := s, seqNo := (f.seqNo + 1) % 256)
  }

  /** `w` is `s` up to its first NUL. */
  predicate IsWhole(s: Bytes, w: Bytes) {
    |w| <= |s| && w == s[..|w|] && 0 !in w && (|w| < |s| ==> s[|w|] == 0)
  }

  lemma {:induction false} WholeIs(s: Bytes)
    ensures IsWhole(s, FakeDevice.UpToNul(s))
  {
    if s != [] && s[0] != 0 {
      WholeIs(s[1..]);
    }
  }

  lemma WholeUnique(s: Bytes, w: Bytes)
    requires IsWhole(s, w)
    ensures FakeDevice.UpToNul(s) == w
  {
    WholeIs(s);
    var v := FakeDevice.UpToNul(s);
    assert forall i :: 0 <= i < |v| ==> v[i] in v;
    assert forall i :: 0 <= i < |w| ==> w[i] in w;
  }

  /** A chunk adds the next four bytes of the string, or what is left of it, and then it is the last. */
  lemma ChunkAdds(text: Bytes, sid: Word, seqNo: byte)
    requires 4 * seqNo as int <= |Whole(text)|
    ensures var w, at, r := Whole(text), 4 * seqNo as int, ChunkReply(sid, seqNo, text);
      if at + 4 <= |w| then !IsLast(r) && FakeDevice.UpToNul(Payload(r)) == w[at..at + 4]
      else IsLast(r) && FakeDevice.UpToNul(Payload(r)) == w[at..]
  {
    WholeIs(text);
    var w, at, r := Whole(text), 4 * seqNo as int, ChunkReply(sid, seqNo, text);
    var c := FakeDevice.ChunkOf(text, seqNo);
    assert Payload(r) == c;
    if at + 4 <= |w| {
      assert c == w[at..at + 4];
      assert forall i :: 0 <= i < 4 ==> c[i] in w;
      WholeUnique(c, c);
    } else {
      var left := |w| - at;
      assert c[left] == 0;
      assert c[..left] == w[at..];
      assert forall i :: 0 <= i < left ==> c[i] == w[at + i] && w[at + i] in w;
      WholeUnique(c, w[at..]);
    }
  }

  /** A fetch that got the chunk it asked for. */
  lemma FetchGrows(f: Fetch, round: nat, text: Bytes)
    requires !f.done && Ends(text) && f.seqNo as int == round
    requires 4 * round <= |Whole(text)| && f.s == Whole(text)[..4 * round]
    ensures var g := NextFetch(f, Some(ChunkReply(f.id.1, f.seqNo, text)));
      if g.done then g.s == Whole(text)
      else g.seqNo as int == round + 1 && 4 * (round + 1) <= |Whole(text)| && g.s == Whole(text)[..4 * (round + 1)]
  {
    var w, at := Whole(text), 4 * round;
    ChunkAdds(text, f.id.1, f.seqNo);
    if at + 4 <= |w| {
      assert w[..at] + w[at..at + 4] == w[..at + 4];
    } else {
      assert w[..at] + w[at..] == w;
    }
  }

  // ----- what a fetch brings

  /** A fetch after a round on a bus that loses every reply to the chunks of `lost`. */
  function AfterChunk(text: Bytes, sid: Word, f: Fetch, lost: set<byte>): Fetch {
    NextFetch(f, if f.seqNo in lost then None else Some(ChunkReply(sid, f.seqNo, text)))
  }

  /** A fetch of a device's string on such a bus, one chunk a round. */
  function Fetching(text: Bytes, sid: Word, f: Fetch, lost: set<byte>, rounds: nat): Fetch
    decreases rounds
  {
    if rounds == 0 || f.done then f else Fetching(text, sid, AfterChunk(text, sid, f, lost), lost, rounds - 1)
  }

  /** What a fetch brings of a string under a loss of chunks. */
  function FetchedUnder(text: Bytes, sid: Word, lost: set<byte>): Bytes {
    Fetching(text, sid, Fetch((0, sid), [], 0, false), lost, 256).s
  }

  /** A whole string, or the part of it that comes before one of its chunks. */
  predicate UpToChunk(whole: Bytes, s: Bytes) {
    s == whole || ProperlyCut(whole, s)
  }

  /** A string that lacks its end, from the start of a chunk on. */
  predicate ProperlyCut(whole: Bytes, s: Bytes) {
    s < whole && |s| % 4 == 0
  }

  /** A fetch that has come to the chunk it asks for next. */
  predicate OnTrack(f: Fetch, whole: Bytes) {
    !f.done && 4 * f.seqNo as int <= |whole| && f.s == whole[..4 * f.seqNo as int]
  }

  /** One round of a fetch: it ends at a lost chunk or whole, or goes on with four more bytes. */
  predicate OneChunkOn(f: Fetch, g: Fetch, whole: Bytes, lost: set<byte>) {
    if f.seqNo in lost then g.done && g.s == f.s
    else if 4 * f.seqNo as int + 4 > |whole| then g.done && g.s == whole
    else OnTrack(g, whole) && g.seqNo as int == f.seqNo as int + 1
  }

  lemma FetchingSteps(text: Bytes, sid: Word, f: Fetch, lost: set<byte>)
    requires OnTrack(f, Whole(text)) && Ends(text)
    ensures OneChunkOn(f, AfterChunk(text, sid, f, lost), Whole(text), lost)
  {
    FetchGrows(f.(id := (f.id.0, sid)), f.seqNo, text);
    ChunkAdds(text, sid, f.seqNo);
  }

  lemma StopsUpToChunk(f: Fetch, g: Fetch, whole: Bytes, lost: set<byte>)
    requires OnTrack(f, whole) && OneChunkOn(f, g, whole, lost) && g.done
    ensures UpToChunk(whole, g.s) && (lost == {} ==> g.s == whole)
  {
  }

  lemma DoneStays(text: Bytes, sid: Word, f: Fetch, lost: set<byte>, rounds: nat)
    requires f.done
    ensures Fetching(text, sid, f, lost, rounds) == f
  {
  }

  /** A fetch ends, with the string up to a chunk that is lost, or all of it. */
  lemma {:induction false} FetchingRuns(text: Bytes, sid: Word, f: Fetch, lost: set<byte>, rounds: nat)
    requires OnTrack(f, Whole(text)) && Ends(text) && rounds > |Whole(text)| / 4 - f.seqNo as int
    ensures var g := Fetching(text, sid, f, lost, rounds);
      g.done && UpToChunk(Whole(text), g.s) && (lost == {} ==> g.s == Whole(text))
    decreases rounds
  {
    var g := AfterChunk(text, sid, f, lost);
    FetchingSteps(text, sid, f, lost);
    if g.done {
      StopsUpToChunk(f, g, Whole(text), lost);
      DoneStays(text, sid, g, lost, rounds - 1);
    } else {
      FetchingRuns(text, sid, g, lost, rounds - 1);
    }
  }

  /** One lost chunk cuts the string there. */
  lemma {:induction false} FetchingStops(text: Bytes, sid: Word, f: Fetch, q: byte, rounds: nat)
    requires OnTrack(f, Whole(text)) && Ends(text)
    requires rounds > q - f.seqNo && f.seqNo <= q && 4 * q as int <= |Whole(text)|
    ensures Fetching(text, sid, f, {q}, rounds).s == Whole(text)[..4 * q as int]
    decreases rounds
  {
    var g := AfterChunk(text, sid, f, {q});
    FetchingSteps(text, sid, f, {q});
    if f.seqNo == q {
      DoneStays(text, sid, g, {q}, rounds - 1);
    } else {
      FetchingStops(text, sid, g, q, rounds - 1);
    }
  }

  lemma GoesOn(text: Bytes, sid: Word, f: Fetch)
    requires !f.done && !Ends(text)
    ensures !AfterChunk(text, sid, f, {}).done
  {
    ChunkAdds(text, sid, f.seqNo);
  }

  lemma {:induction false} FetchingGoesRound(text: Bytes, sid: Word, f: Fetch, rounds: nat)
    requires !f.done && !Ends(text)
    ensures !Fetching(text, sid, f, {}, rounds).done
    decreases rounds
  {
    if rounds > 0 {
      GoesOn(text, sid, f);
      FetchingGoesRound(text, sid, AfterChunk(text, sid, f, {}), rounds - 1);
    }
  }

  /** A fetch on a lossless bus ends, with the whole string, exactly when the string has a NUL or its end
      in its first 1024 bytes: past that the sequence number wraps and the fetch starts over for ever. */
  lemma FetchEndsIff(text: Bytes, id: Id)
    ensures Ends(text) <==> exists rounds: nat :: Fetching(text, id.1, Fetch(id, [], 0, false), {}, rounds).done
    ensures Ends(text) ==> Fetching(text, id.1, Fetch(id, [], 0, false), {}, 256).s == Whole(text)
  {
    var f := Fetch(id, [], 0, false);
    if Ends(text) {
      FetchingRuns(text, id.1, f, {}, 256);
      assert Fetching(text, id.1, f, {}, 256).done;
    } else {
      forall rounds: nat
        ensures !Fetching(text, id.1, f, {}, rounds).done
      {
        FetchingGoesRound(text, id.1, f, rounds);
      }
    }
  }

  /** The chunk whose loss leaves this part of a string. */
  function LossOf(whole: Bytes, s: Bytes): set<byte>
    requires |whole| < 1024 && UpToChunk(whole, s)
  {
    if s == whole then {} else {|s| / 4}
  }

  /** What a fetch can bring of a string, under one loss or another: all of it, or it up to any of its chunks. */
  lemma FetchedIff(text: Bytes, sid: Word, s: Bytes)
    requires Ends(text)
    ensures UpToChunk(Whole(text), s) <==> exists lost: set<byte> :: FetchedUnder(text, sid, lost) == s
    ensures UpToChunk(Whole(text), s) ==> FetchedUnder(text, sid, LossOf(Whole(text), s)) == s
  {
    var f := Fetch((0, sid), [], 0, false);
    forall lost: set<byte> | FetchedUnder(text, sid, lost) == s
      ensures UpToChunk(Whole(text), s)
    {
      FetchingRuns(text, sid, f, lost, 256);
    }
    if UpToChunk(Whole(text), s) {
      if s == Whole(text) {
        FetchingRuns(text, sid, f, {}, 256);
      } else {
        FetchingStops(text, sid, f, |s| / 4, 256);
      }
      assert FetchedUnder(text, sid, LossOf(Whole(text), s)) == s;
    }
  }
}
