/** Streaming a download: the response callback over a blob reader that may stop short. */
module DownloadStream {
  import opened Arithmetic
  import opened Blobs
  import opened Text
  import opened RangeRequest

  const DOWNLOAD_STREAM_CHUNK_BYTES: nat := 64 * 1024

  /**
   * One invocation by the HTTP framework: whether it brings a buffer, the length it suggests, and how
   * many bytes the reader is ready to hand over (0 when it has ended or throws).
   */
  datatype Call = Call(buffer: bool, suggested: nat, ready: nat)

  /** `DownloadStreamState`, the reader's state, and the interruptions reported so far. */
  datatype Transfer = Transfer(
    remaining: nat,
    delivered: nat,
    interruptionRecorded: bool,
    closed: bool,
    reported: seq<nat>)

  function Min(a: nat, b: nat): nat {
    if a <= b then a else b
  }

  function Opened(contentLength: nat): Transfer {
    Transfer(contentLength, 0, false, false, [])
  }

  /** What the reader returns; `content` is what it holds of the requested bytes. */
  function ReadCount(t: Transfer, content: Bytes, call: Call): nat {
    if t.closed || |content| < t.delivered then 0
    else
      Min(call.ready,
          Min(Min(call.suggested, Min(DOWNLOAD_STREAM_CHUNK_BYTES, t.remaining)), |content| - t.delivered))
  }

  /** The callback's effect and the number of bytes it puts into the buffer. */
  function Callback(t: Transfer, content: Bytes, call: Call): (Transfer, nat) {
    if !call.buffer || t.remaining == 0 then (t.(closed := true), 0)
    else
      var got := ReadCount(t, content, call);
      if got == 0 then
        var reported := if t.interruptionRecorded then t.reported else t.reported + [t.delivered];
        (Transfer(0, t.delivered, true, true, reported), 0)
      else
        (t.(remaining := t.remaining - got, delivered := t.delivered + got, closed := t.remaining == got), got)
  }

  /** The closure handed to the framework, with the state it captures. */
  class StreamResponse {
    const content: Bytes
    var remaining: nat
    var delivered: nat
    var interruptionRecorded: bool
    var closed: bool
    var reported: seq<nat>

    ghost function View(): Transfer
      reads this
    {
      Transfer(remaining, delivered, interruptionRecorded, closed, reported)
    }

    constructor (content: Bytes, contentLength: nat)
      ensures View() == Opened(contentLength) && this.content == content
    {
      this.content := content;
      remaining, delivered := contentLength, 0;
      interruptionRecorded, closed, reported := false, false, [];
    }

    method Read(length: nat, ready: nat) returns (bytes: Bytes)
      ensures bytes == if closed || |content| < delivered then []
        else content[delivered..delivered + Min(ready, Min(length, |content| - delivered))]
    {
      if closed || |content| < delivered {
        return [];
      }
      var count := Min(ready, Min(length, |content| - delivered));
      return content[delivered..delivered + count];
    }

    method Invoke(call: Call) returns (written: Bytes)
      modifies this
      ensures (View(), |written|) == Callback(old(View()), content, call)
      ensures |written| <= call.suggested && |written| <= 65536 && |written| <= old(remaining)
      ensures |written| > 0 ==>
        old(delivered) + |written| <= |content| && written == content[old(delivered)..old(delivered) + |written|]
    {
      if !call.buffer {
        closed := true;
        return [];
      }
      if remaining == 0 {
        closed := true;
        return [];
      }
      var readSize := Min(call.suggested, Min(DOWNLOAD_STREAM_CHUNK_BYTES, remaining));
      var bytes := Read(readSize, call.ready);
      if |bytes| == 0 {
        if !interruptionRecorded {
          interruptionRecorded := true;
          reported := reported + [delivered];
        }
        remaining := 0;
        closed := true;
        return [];
      }
      var bounded := Min(|bytes|, remaining);
      remaining := remaining - bounded;
      delivered := delivered + bounded;
      if remaining == 0 {
        closed := true;
      }
      return bytes[..bounded];
    }
  }

  /** The transfer after a sequence of calls. */
  function After(contentLength: nat, content: Bytes, calls: seq<Call>): Transfer {
    if calls == [] then Opened(contentLength)
    else Callback(After(contentLength, content, calls[..|calls| - 1]), content, calls[|calls| - 1]).0
  }

  /** What one call writes: the next bytes of the reader. */
  function Written(t: Transfer, content: Bytes, call: Call): Bytes {
    var got := Callback(t, content, call).1;
    if got > 0 && t.delivered + got <= |content| then content[t.delivered..t.delivered + got] else []
  }

  /** The response body: what the calls wrote, in order. */
  function Body(contentLength: nat, content: Bytes, calls: seq<Call>): Bytes {
    if calls == [] then []
    else
      var n := |calls| - 1;
      Body(contentLength, content, calls[..n]) + Written(After(contentLength, content, calls[..n]), content, calls[n])
  }

  /** What every sequence of calls keeps. */
  ghost predicate Consistent(contentLength: nat, content: Bytes, t: Transfer) {
    && t.delivered <= Min(contentLength, |content|)
    && (t.interruptionRecorded <==> t.reported != [])
    && (t.reported == [] ==> t.delivered + t.remaining == contentLength)
    && (t.reported != [] ==> t.reported == [t.delivered] && t.remaining == 0 && t.delivered < contentLength)
    && (t.remaining == 0 && contentLength > 0 ==> t.closed)
  }

  lemma CallbackKeeps(contentLength: nat, content: Bytes, t: Transfer, call: Call)
    requires Consistent(contentLength, content, t)
    ensures var (t', got) := Callback(t, content, call);
      Consistent(contentLength, content, t') && t'.delivered == t.delivered + got
  {
  }

  lemma {:induction false} StreamStaysConsistent(contentLength: nat, content: Bytes, calls: seq<Call>)
    ensures Consistent(contentLength, content, After(contentLength, content, calls))
  {
    if calls != [] {
      var n := |calls| - 1;
      StreamStaysConsistent(contentLength, content, calls[..n]);
      CallbackKeeps(contentLength, content, After(contentLength, content, calls[..n]), calls[n]);
    }
  }

  lemma Joins(blob: Bytes, lo: nat, hi: nat)
    requires lo <= hi <= |blob|
    ensures blob[..lo] + blob[lo..hi] == blob[..hi]
  {
  }

  lemma WrittenExtendsPrefix(contentLength: nat, content: Bytes, t: Transfer, call: Call)
    requires Consistent(contentLength, content, t)
    ensures var after := Callback(t, content, call).0.delivered;
      after <= |content| && content[..t.delivered] + Written(t, content, call) == content[..after]
  {
    CallbackKeeps(contentLength, content, t, call);
    var got := Callback(t, content, call).1;
    Joins(content, t.delivered, t.delivered + got);
  }

  lemma {:induction false} BodyIsPrefix(contentLength: nat, content: Bytes, calls: seq<Call>)
    requires After(contentLength, content, calls).delivered <= |content|
    ensures Body(contentLength, content, calls) == content[..After(contentLength, content, calls).delivered]
  {
    if calls != [] {
      var n := |calls| - 1;
      StreamStaysConsistent(contentLength, content, calls[..n]);
      BodyIsPrefix(contentLength, content, calls[..n]);
      WrittenExtendsPrefix(contentLength, content, After(contentLength, content, calls[..n]), calls[n]);
    }
  }

  /**
   * For every sequence of calls the body is the prefix of length `delivered` of the reader's bytes,
   * delivered and remaining add up until an interruption, and at most one interruption is reported,
   * with the bytes delivered, when fewer than `contentLength` have been.
   */
  lemma StreamConserves(contentLength: nat, content: Bytes, calls: seq<Call>)
    ensures var t := After(contentLength, content, calls);
      && Consistent(contentLength, content, t)
      && Body(contentLength, content, calls) == content[..t.delivered]
  {
    StreamStaysConsistent(contentLength, content, calls);
    BodyIsPrefix(contentLength, content, calls);
  }

  /** The least of the length the framework suggests, 64 KiB, and what is owed. */
  predicate IsLeast(n: nat, suggested: nat, owed: int) {
    && n <= suggested && n <= 65536 && n <= owed
    && (n == suggested || n == 65536 || n == owed)
  }

  /**
   * After every sequence of calls, the next call writes no more than was suggested, than 64 KiB, and
   * than is owed; and exactly the least of them if it brings a buffer, nothing has closed the stream,
   * and the reader has and hands over that much.
   */
  lemma CallFillsItsBuffer(contentLength: nat, content: Bytes, calls: seq<Call>, call: Call)
    ensures var t := After(contentLength, content, calls);
      var got := Callback(t, content, call).1;
      && got <= call.suggested && got <= 65536 && got <= contentLength - t.delivered
      && |Written(t, content, call)| == got
      && (call.buffer && !t.closed && |content| >= contentLength && call.ready >= Min(call.suggested, 65536) ==>
           IsLeast(got, call.suggested, contentLength - t.delivered))
  {
    StreamStaysConsistent(contentLength, content, calls);
  }

  /** A call without a buffer closes the stream; what is still owed is then never sent, and is reported. */
  lemma NullBufferEndsStream(contentLength: nat, content: Bytes, calls: seq<Call>, empty: Call, call: Call)
    requires !empty.buffer && call.buffer
    ensures var before := After(contentLength, content, calls);
      var t := After(contentLength, content, calls + [empty]);
      && t.delivered == before.delivered && t.remaining == before.remaining && t.closed
      && Written(before, content, empty) == [] && Written(t, content, call) == []
      && (t.remaining > 0 ==> Callback(t, content, call).0.reported == [t.delivered])
  {
    StreamStaysConsistent(contentLength, content, calls);
    assert (calls + [empty])[..|calls|] == calls;
  }

  /** A call that asks for nothing, or whose reader has nothing to give, while bytes are still owed. */
  predicate Starved(t: Transfer, content: Bytes, call: Call) {
    && call.buffer && t.remaining > 0
    && (t.closed || call.suggested == 0 || call.ready == 0 || |content| <= t.delivered)
  }

  /** Some call of the sequence was starved. */
  predicate EverStarved(contentLength: nat, content: Bytes, calls: seq<Call>) {
    calls != [] &&
    var n := |calls| - 1;
    || EverStarved(contentLength, content, calls[..n])
    || Starved(After(contentLength, content, calls[..n]), content, calls[n])
  }

  /** An interruption has been reported exactly when some call was starved. */
  lemma {:induction false} InterruptedIffStarved(contentLength: nat, content: Bytes, calls: seq<Call>)
    ensures After(contentLength, content, calls).reported != [] <==> EverStarved(contentLength, content, calls)
  {
    if calls != [] {
      InterruptedIffStarved(contentLength, content, calls[..|calls| - 1]);
      StreamStaysConsistent(contentLength, content, calls[..|calls| - 1]);
    }
  }

  /** Every call that brings a buffer while bytes are owed makes `remaining` strictly smaller. */
  lemma CallsMakeProgress(contentLength: nat, content: Bytes, calls: seq<Call>, call: Call)
    requires call.buffer && After(contentLength, content, calls).remaining > 0
    ensures After(contentLength, content, calls + [call]).remaining < After(contentLength, content, calls).remaining
  {
    assert (calls + [call])[..|calls|] == calls;
    StreamConserves(contentLength, content, calls);
  }

  /** The framework keeps calling with room, and the reader, however slowly, keeps giving. */
  predicate Patient(calls: seq<Call>) {
    forall k :: 0 <= k < |calls| ==> calls[k].buffer && calls[k].suggested > 0 && calls[k].ready > 0
  }

  lemma {:induction false} PatientProgress(contentLength: nat, content: Bytes, calls: seq<Call>)
    requires Patient(calls) && |content| == contentLength
    ensures var t := After(contentLength, content, calls);
      && t.reported == [] && (t.closed ==> t.remaining == 0)
      && (t.remaining == 0 || t.delivered >= |calls|)
  {
    if calls != [] {
      PatientProgress(contentLength, content, calls[..|calls| - 1]);
      StreamConserves(contentLength, content, calls[..|calls| - 1]);
    }
  }

  /** As many patient calls as there are bytes deliver exactly the requested bytes, uninterrupted. */
  lemma PatientStreamIsComplete(contentLength: nat, content: Bytes, calls: seq<Call>)
    requires Patient(calls) && |content| == contentLength <= |calls|
    ensures Body(contentLength, content, calls) == content
    ensures After(contentLength, content, calls).reported == []
  {
    PatientProgress(contentLength, content, calls);
    StreamConserves(contentLength, content, calls);
  }

  /** The code takes a suggestion of zero for the end of the source: a healthy reader is reported. */
  lemma EmptySuggestionIsReported(contentLength: nat, content: Bytes)
    requires |content| == contentLength > 0
    ensures After(contentLength, content, [Call(true, 0, 1)]).reported == [0]
  {
    var calls := [Call(true, 0, 1)];
    assert calls[..0] == [];
  }

  lemma PartEnd(c: nat, k: nat)
    requires c > 0
    ensures (k + 1) * c == k * c + c && k * c >= 0
  {
  }

  /** The `k`-th request of a download in parts of `c` bytes. */
  function PartHeader(c: nat, k: nat): string
    requires c > 0
  {
    PartEnd(c, k);
    RangeHeader(Decimal(k * c), Decimal((k + 1) * c - 1))
  }

  /** The answer to the `k`-th part request. */
  function PartAnswer(size: nat, c: nat, k: nat): Answer
    requires size < TWO_64 && c > 0
  {
    PlanDownload(PartHeader(c, k), size)
  }

  /** The body a client receives for one answer, given how the calls went. */
  function Response(answer: Answer, blob: Bytes, calls: seq<Call>): Bytes {
    if answer.Send? && answer.start <= answer.end < |blob|
    then Body(answer.length, blob[answer.start..answer.end + 1], calls)
    else []
  }

  /** The calls of a part went well. */
  predicate Served(calls: seq<Call>, c: nat) {
    Patient(calls) && |calls| >= c
  }

  function Flatten(bodies: seq<Bytes>): Bytes {
    if bodies == [] then [] else Flatten(bodies[..|bodies| - 1]) + bodies[|bodies| - 1]
  }

  /** The bodies the client has received, one a part, each after its own sequence of calls. */
  predicate Received(blob: Bytes, c: nat, schedules: seq<seq<Call>>, bodies: seq<Bytes>)
    requires |blob| < TWO_64 && c > 0
  {
    && |bodies| == |schedules| == CeilDiv(|blob|, c)
    && forall k :: 0 <= k < |bodies| ==> bodies[k] == Response(PartAnswer(|blob|, c, k), blob, schedules[k])
  }

  /** The `k`-th slice of `c` bytes, the last one clamped. */
  predicate IsPart(blob: Bytes, c: nat, k: nat, body: Bytes) {
    var lo, hi := k * c, Min((k + 1) * c, |blob|);
    lo <= hi && body == blob[lo..hi]
  }

  /** A part that begins inside the blob is answered, clamped to it, if its nominal end fits 64 bits. */
  lemma PartIsAnswered(size: nat, c: nat, k: nat)
    requires 0 < size < TWO_64 && c > 0 && k * c < size
    ensures k * c <= Min((k + 1) * c, size)
    ensures var answer := PartAnswer(size, c, k);
      var end := Min((k + 1) * c, size);
      if (k + 1) * c <= TWO_64 then answer == Send(true, k * c, end - 1, end - k * c) else answer.NotSatisfiable?
  {
    PartEnd(c, k);
    var start, end := k * c, (k + 1) * c - 1;
    assert PartAnswer(size, c, k) == PlanDownload(RangeHeader(Decimal(start), Decimal(end)), size);
    PrintedRangeIsAnswered(start, end, size);
  }

  lemma SendsSlice(answer: Answer, blob: Bytes, calls: seq<Call>, start: nat, end: nat)
    requires start < end <= |blob| && answer == Send(true, start, end - 1, end - start)
    requires Patient(calls) && |calls| >= end - start
    ensures Response(answer, blob, calls) == blob[start..end]
  {
    var slice := blob[start..end];
    assert answer.start == start && answer.end + 1 == end && answer.length == |slice|;
    assert Response(answer, blob, calls) == Body(|slice|, slice, calls);
    PatientStreamIsComplete(|slice|, slice, calls);
  }

  lemma PartBody(blob: Bytes, c: nat, k: nat, calls: seq<Call>)
    requires 0 < |blob| < TWO_64 && c > 0 && k * c < |blob| && (k + 1) * c <= TWO_64
    requires Served(calls, c)
    ensures IsPart(blob, c, k, Response(PartAnswer(|blob|, c, k), blob, calls))
  {
    PartEnd(c, k);
    PartIsAnswered(|blob|, c, k);
    SendsSlice(PartAnswer(|blob|, c, k), blob, calls, k * c, Min((k + 1) * c, |blob|));
  }

  /** Consecutive slices join up. */
  lemma {:induction false} PartsJoin(blob: Bytes, c: nat, bodies: seq<Bytes>)
    requires forall k :: 0 <= k < |bodies| ==> IsPart(blob, c, k, bodies[k])
    ensures Flatten(bodies) == blob[..Min(|bodies| * c, |blob|)]
  {
    if bodies != [] {
      var k := |bodies| - 1;
      assert IsPart(blob, c, k, bodies[k]);
      PartsJoin(blob, c, bodies[..k]);
      Joins(blob, k * c, Min((k + 1) * c, |blob|));
    }
  }

  lemma PartsCover(n: nat, c: nat)
    requires n > 0 && c > 0
    ensures var parts := CeilDiv(n, c); parts > 0 && (parts - 1) * c < n <= parts * c
  {
    CeilDivBound(n, c, CeilDiv(n, c));
    CeilDivBound(n, c, 0);
    CeilDivBound(n, c, CeilDiv(n, c) - 1);
  }

  /** If the last part's nominal end fits 64 bits, all do; the last part decides. */
  lemma LastPartDecides(size: nat, c: nat, k: nat)
    requires 0 < size < TWO_64 && c > 0 && k < CeilDiv(size, c)
    ensures CeilDiv(size, c) * c <= TWO_64 ==> PartAnswer(size, c, k).Send?
    ensures k == CeilDiv(size, c) - 1 ==> (PartAnswer(size, c, k).Send? <==> CeilDiv(size, c) * c <= TWO_64)
  {
    var parts := CeilDiv(size, c);
    PartsCover(size, c);
    MulOrder(k, parts - 1, c);
    MulOrder(k + 1, parts, c);
    PartIsAnswered(size, c, k);
  }

  /** Every part request is answered. */
  predicate AllAnswered(size: nat, c: nat, parts: nat)
    requires size < TWO_64 && c > 0
  {
    forall k :: 0 <= k < parts ==> PartAnswer(size, c, k).Send?
  }

  lemma AllPartsAnswered(size: nat, c: nat, parts: nat)
    requires 0 < size < TWO_64 && c > 0 && parts == CeilDiv(size, c)
    ensures AllAnswered(size, c, parts) <==> parts * c <= TWO_64
  {
    PartsCover(size, c);
    LastPartDecides(size, c, parts - 1);
    forall k | 0 <= k < parts ensures parts * c <= TWO_64 ==> PartAnswer(size, c, k).Send? {
      LastPartDecides(size, c, k);
    }
  }

  lemma ReceivedParts(blob: Bytes, c: nat, schedules: seq<seq<Call>>, bodies: seq<Bytes>, k: nat)
    requires 0 < |blob| < TWO_64 && c > 0 && Received(blob, c, schedules, bodies) && k < |bodies|
    requires |bodies| * c <= TWO_64 && Served(schedules[k], c)
    ensures IsPart(blob, c, k, bodies[k])
  {
    PartsCover(|blob|, c);
    MulOrder(k, |bodies| - 1, c);
    MulOrder(k + 1, |bodies|, c);
    PartBody(blob, c, k, schedules[k]);
  }

  /**
   * Requesting a blob in parts of `c` bytes: every request is answered exactly when the last part's
   * nominal end fits 64 bits, and then the bodies in order are the blob, last part clamped, however
   * the reader and the framework paced the transfers.
   */
  lemma PartsReassemble(blob: Bytes, c: nat, schedules: seq<seq<Call>>, bodies: seq<Bytes>)
    requires 0 < |blob| < TWO_64 && c > 0 && Received(blob, c, schedules, bodies)
    requires forall k :: 0 <= k < |schedules| ==> Served(schedules[k], c)
    ensures AllAnswered(|blob|, c, |bodies|) <==> |bodies| * c <= TWO_64
    ensures |bodies| * c <= TWO_64 ==> Flatten(bodies) == blob
  {
    AllPartsAnswered(|blob|, c, |bodies|);
    if |bodies| * c <= TWO_64 {
      forall k | 0 <= k < |bodies| ensures IsPart(blob, c, k, bodies[k]) {
        ReceivedParts(blob, c, schedules, bodies, k);
      }
      PartsJoin(blob, c, bodies);
      PartsCover(|blob|, c);
    }
  }
}
