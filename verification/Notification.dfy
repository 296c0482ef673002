/** The ADS DeviceNotification payload: stamps, each holding length-prefixed samples. */
module Notification {
  import opened Bytes
  import opened Outcomes

  datatype Sample = Sample(handle: u32, data: seq<byte>)

  datatype Stamp = Stamp(timestamp: u64, samples: seq<Sample>)

  /** How far a decoding loop got: the complete items, the bytes not yet consumed,
      and whether every announced item was read. */
  datatype Progress<T> = Progress(items: seq<T>, unread: seq<byte>, ok: bool)

  // ---------- the printed form ----------

  predicate FitsSample(s: Sample) { |s.data| < U32_MODULUS }

  predicate FitsStamp(st: Stamp) {
    |st.samples| < U32_MODULUS && forall s :: s in st.samples ==> FitsSample(s)
  }

  predicate FitsStamps(stamps: seq<Stamp>) {
    |stamps| < U32_MODULUS && forall st :: st in stamps ==> FitsStamp(st)
  }

  function PrintSample(s: Sample): seq<byte>
    requires FitsSample(s)
  {
    Put32(s.handle) + Put32(|s.data|) + s.data
  }

  function PrintSamples(ss: seq<Sample>): seq<byte>
    requires forall s :: s in ss ==> FitsSample(s)
  {
    if ss == [] then [] else PrintSample(ss[0]) + PrintSamples(ss[1..])
  }

  function PrintStamp(st: Stamp): seq<byte>
    requires FitsStamp(st)
  {
    Put64(st.timestamp) + Put32(|st.samples|) + PrintSamples(st.samples)
  }

  /** The body of a notification: everything after the length and the stamp count. */
  function PrintBody(stamps: seq<Stamp>): seq<byte>
    requires forall st :: st in stamps ==> FitsStamp(st)
  {
    if stamps == [] then [] else PrintStamp(stamps[0]) + PrintBody(stamps[1..])
  }

  /** The length field counts the stamp count and the body, not itself. */
  function Print(stamps: seq<Stamp>): seq<byte>
    requires FitsStamps(stamps) && 8 + |PrintBody(stamps)| < U32_MODULUS
  {
    Put32(4 + |PrintBody(stamps)|) + Put32(|stamps|) + PrintBody(stamps)
  }

  // ---------- the decoder, as a function of the unread input ----------

  function ReadSample(s: seq<byte>): (r: Option<(Sample, seq<byte>)>)
    ensures r.Some? ==> |r.value.1| < |s|
  {
    if |s| < 8 then None
    else
      var size := Get32(s[4..8]);
      if |s| < 8 + size then None
      else Some((Sample(Get32(s[0..4]), s[8..8 + size]), s[8 + size..]))
  }

  function DecodeSamples(s: seq<byte>, n: nat): (p: Progress<Sample>)
    ensures |p.unread| <= |s|
    ensures p.ok ==> |p.items| == n
    decreases n
  {
    if n == 0 then Progress([], s, true)
    else
      match ReadSample(s)
      case None => Progress([], s, false)
      case Some((sample, s')) =>
        var rest := DecodeSamples(s', n - 1);
        rest.(items := [sample] + rest.items)
  }

  function ReadStamp(s: seq<byte>): (r: Option<(Stamp, seq<byte>)>)
    ensures r.Some? ==> |r.value.1| < |s|
  {
    if |s| < 12 then None
    else
      var samples := DecodeSamples(s[12..], Get32(s[8..12]));
      if samples.ok then Some((Stamp(Get64(s[0..8]), samples.items), samples.unread)) else None
  }

  function DecodeStamps(s: seq<byte>, n: nat): (p: Progress<Stamp>)
    ensures |p.unread| <= |s|
    ensures p.ok ==> |p.items| == n
    decreases n
  {
    if n == 0 then Progress([], s, true)
    else
      match ReadStamp(s)
      case None => Progress([], s, false)
      case Some((stamp, s')) =>
        var rest := DecodeStamps(s', n - 1);
        rest.(items := [stamp] + rest.items)
  }

  /** The checks on the two header fields, made in uint32. */
  predicate HeaderOk(data: seq<byte>) {
    |data| >= 8 && Wrap32(|data|) >= Wrap32(4 + Get32(data[0..4]))
  }

  /** What the body of a message with a good header decodes to. */
  function DecodeBody(data: seq<byte>): Progress<Stamp>
    requires |data| >= 8
  {
    DecodeStamps(data[8..], Get32(data[4..8]))
  }

  // ---------- decoding what was printed ----------

  lemma ReadPrintedSample(s: Sample, post: seq<byte>)
    requires FitsSample(s)
    ensures ReadSample(PrintSample(s) + post) == Some((s, post))
  {
    hide Put32, Get32;
    var data := PrintSample(s) + post;
    assert data[0..4] == Put32(s.handle);
    assert data[4..8] == Put32(|s.data|);
    assert data[8..8 + |s.data|] == s.data;
    assert data[8 + |s.data|..] == post;
  }

  lemma {:induction false} DecodePrintedSamples(ss: seq<Sample>, post: seq<byte>)
    requires forall s :: s in ss ==> FitsSample(s)
    ensures DecodeSamples(PrintSamples(ss) + post, |ss|) == Progress(ss, post, true)
  {
    hide ReadSample, PrintSample;
    if ss == [] {
      assert PrintSamples(ss) + post == post;
    } else {
      var others := PrintSamples(ss[1..]) + post;
      assert PrintSamples(ss) + post == PrintSample(ss[0]) + others;
      ReadPrintedSample(ss[0], others);
      DecodePrintedSamples(ss[1..], post);
      assert ss == [ss[0]] + ss[1..];
    }
  }

  lemma ReadPrintedStamp(st: Stamp, post: seq<byte>)
    requires FitsStamp(st)
    ensures ReadStamp(PrintStamp(st) + post) == Some((st, post))
  {
    hide Put32, Get32, Put64, Get64, PrintSamples, DecodeSamples;
    var data := PrintStamp(st) + post;
    assert data[0..8] == Put64(st.timestamp);
    assert data[8..12] == Put32(|st.samples|);
    assert data[12..] == PrintSamples(st.samples) + post;
    DecodePrintedSamples(st.samples, post);
  }

  lemma {:induction false} DecodePrintedStamps(stamps: seq<Stamp>, post: seq<byte>)
    requires forall st :: st in stamps ==> FitsStamp(st)
    ensures DecodeStamps(PrintBody(stamps) + post, |stamps|) == Progress(stamps, post, true)
  {
    hide ReadStamp, PrintStamp;
    if stamps == [] {
      assert PrintBody(stamps) + post == post;
    } else {
      var others := PrintBody(stamps[1..]) + post;
      assert PrintBody(stamps) + post == PrintStamp(stamps[0]) + others;
      ReadPrintedStamp(stamps[0], others);
      DecodePrintedStamps(stamps[1..], post);
      assert stamps == [stamps[0]] + stamps[1..];
    }
  }

  /** Decoding a printed notification returns its stamps, and stops where the print ends. */
  lemma DecodePrint(stamps: seq<Stamp>, tail: seq<byte>)
    requires FitsStamps(stamps) && 8 + |PrintBody(stamps)| + |tail| < U32_MODULUS
    ensures var data := Print(stamps) + tail;
            HeaderOk(data) && DecodeBody(data) == Progress(stamps, tail, true)
  {
    hide Put32, Get32, PrintBody, DecodeStamps;
    var body := PrintBody(stamps);
    var data := Print(stamps) + tail;
    assert data[0..4] == Put32(4 + |body|);
    assert data[4..8] == Put32(|stamps|);
    assert data[8..] == body + tail;
    DecodePrintedStamps(stamps, tail);
  }

  // ---------- printing what was decoded ----------

  lemma PrintReadSample(s: seq<byte>)
    requires ReadSample(s).Some?
    ensures var (sample, s') := ReadSample(s).value;
            FitsSample(sample) && PrintSample(sample) + s' == s
  {
    hide Put32, Get32;
    PutGet32(s[0..4]);
    PutGet32(s[4..8]);
    var size := Get32(s[4..8]);
    assert s == s[0..4] + s[4..8] + s[8..8 + size] + s[8 + size..];
  }

  lemma {:induction false} PrintDecodedSamples(s: seq<byte>, n: nat)
    requires DecodeSamples(s, n).ok
    ensures var p := DecodeSamples(s, n);
            (forall x :: x in p.items ==> FitsSample(x)) && PrintSamples(p.items) + p.unread == s
    decreases n
  {
    hide ReadSample, PrintSample;
    if n == 0 {
    } else {
      var p := DecodeSamples(s, n);
      PrintReadSample(s);
      var (sample, s') := ReadSample(s).value;
      PrintDecodedSamples(s', n - 1);
      assert p.items[1..] == DecodeSamples(s', n - 1).items;
      assert PrintSample(sample) + (PrintSamples(p.items[1..]) + p.unread)
          == (PrintSample(sample) + PrintSamples(p.items[1..])) + p.unread;
    }
  }

  lemma PrintReadStamp(s: seq<byte>)
    requires ReadStamp(s).Some?
    ensures var (stamp, s') := ReadStamp(s).value;
            FitsStamp(stamp) && PrintStamp(stamp) + s' == s
  {
    hide Put32, Get32, Put64, Get64, PrintSamples, DecodeSamples;
    var (stamp, s') := ReadStamp(s).value;
    PutGet64(s[0..8]);
    PutGet32(s[8..12]);
    PrintDecodedSamples(s[12..], Get32(s[8..12]));
    assert s == s[0..8] + s[8..12] + s[12..];
    assert PrintStamp(stamp) + s' == s[0..8] + s[8..12] + (PrintSamples(stamp.samples) + s');
  }

  lemma {:induction false} PrintDecodedStamps(s: seq<byte>, n: nat)
    requires DecodeStamps(s, n).ok
    ensures var p := DecodeStamps(s, n);
            (forall st :: st in p.items ==> FitsStamp(st)) && PrintBody(p.items) + p.unread == s
    decreases n
  {
    hide ReadStamp, PrintStamp;
    if n == 0 {
    } else {
      var p := DecodeStamps(s, n);
      PrintReadStamp(s);
      var (stamp, s') := ReadStamp(s).value;
      PrintDecodedStamps(s', n - 1);
      assert p.items[1..] == DecodeStamps(s', n - 1).items;
      assert PrintStamp(stamp) + (PrintBody(p.items[1..]) + p.unread)
          == (PrintStamp(stamp) + PrintBody(p.items[1..])) + p.unread;
    }
  }

  /** Whatever bytes decode, the result prints to exactly the body bytes consumed. */
  lemma PrintDecode(data: seq<byte>)
    requires HeaderOk(data) && DecodeBody(data).ok
    ensures FitsStamps(DecodeBody(data).items)
    ensures data == data[..8] + PrintBody(DecodeBody(data).items) + DecodeBody(data).unread
  {
    hide PrintBody, DecodeStamps;
    PrintDecodedStamps(data[8..], Get32(data[4..8]));
    assert data == data[..8] + data[8..];
  }

  // ---------- one loop iteration, in terms of the offset ----------

  lemma ReadSampleAt(data: seq<byte>, offset: nat)
    requires offset <= |data|
    ensures ReadSample(data[offset..])
            == if offset + 8 > |data| then None
               else
                 var size: nat := Get32(data[offset + 4..offset + 8]);
                 if offset + 8 + size > |data| then None
                 else Some((Sample(Get32(data[offset..offset + 4]), data[offset + 8..offset + 8 + size]),
                            data[offset + 8 + size..]))
  {
    hide Get32;
    var s := data[offset..];
    if offset + 8 <= |data| {
      assert s[0..4] == data[offset..offset + 4];
      assert s[4..8] == data[offset + 4..offset + 8];
      var size := Get32(s[4..8]);
      if offset + 8 + size <= |data| {
        assert s[8..8 + size] == data[offset + 8..offset + 8 + size];
        assert s[8 + size..] == data[offset + 8 + size..];
      }
    }
  }

  lemma ReadStampAt(data: seq<byte>, offset: nat)
    requires offset <= |data|
    ensures ReadStamp(data[offset..])
            == if offset + 12 > |data| then None
               else
                 var samples := DecodeSamples(data[offset + 12..], Get32(data[offset + 8..offset + 12]));
                 if samples.ok
                 then Some((Stamp(Get64(data[offset..offset + 8]), samples.items), samples.unread))
                 else None
  {
    hide Get32, Get64, DecodeSamples;
    var s := data[offset..];
    if offset + 12 <= |data| {
      assert s[0..8] == data[offset..offset + 8];
      assert s[8..12] == data[offset + 8..offset + 12];
      assert s[12..] == data[offset + 12..];
    }
  }

  lemma SamplesGrow(s: seq<byte>, n: nat, done: seq<Sample>)
    requires n > 0
    ensures match ReadSample(s)
            case None => DecodeSamples(s, n) == Progress([], s, false)
            case Some((x, s')) =>
              var rest := DecodeSamples(s', n - 1);
              done + DecodeSamples(s, n).items == (done + [x]) + rest.items
              && DecodeSamples(s, n).(items := rest.items) == rest
  {
    hide ReadSample;
  }

  lemma StampsGrow(s: seq<byte>, n: nat, done: seq<Stamp>)
    requires n > 0
    ensures match ReadStamp(s)
            case None => DecodeStamps(s, n) == Progress([], s, false)
            case Some((x, s')) =>
              var rest := DecodeStamps(s', n - 1);
              done + DecodeStamps(s, n).items == (done + [x]) + rest.items
              && DecodeStamps(s, n).(items := rest.items) == rest
  {
    hide ReadStamp;
  }

  // ---------- the receiver ----------

  class DeviceNotificationRequest {
    var stampHeaders: seq<Stamp>

    constructor ()
      ensures stampHeaders == []
    {
      stampHeaders := [];
    }

    /** Succeeds exactly when the header checks pass and every announced stamp is complete.
        A failing call leaves the stamps read before the failure; a header failure changes nothing.
        On success the stamps print to the bytes consumed. */
    method UnmarshalBinary(data: seq<byte>) returns (ok: bool)
      modifies this
      ensures ok <==> HeaderOk(data) && DecodeBody(data).ok
      ensures stampHeaders == if HeaderOk(data) then DecodeBody(data).items else old(stampHeaders)
      ensures ok ==> FitsStamps(stampHeaders)
                     && data == data[..8] + PrintBody(stampHeaders) + DecodeBody(data).unread
    {
      hide Get32, Get64, PrintBody, ReadStamp, DecodeStamps, DecodeSamples, FitsStamps;
      if |data| < 8 {
        return false;
      }
      var length: int := Get32(data[0..4]);
      var stamps: int := Get32(data[4..8]);
      var expectedTotal := Wrap32(4 + length);
      if Wrap32(|data|) < expectedTotal {
        return false;
      }
      stampHeaders := [];
      var offset: nat := 8;
      var i: nat := 0;
      ghost var whole := DecodeStamps(data[8..], stamps);
      while i < stamps
        invariant i <= stamps && offset <= |data|
        invariant var rest := DecodeStamps(data[offset..], stamps - i);
                  whole == rest.(items := stampHeaders + rest.items)
      {
        ReadStampAt(data, offset);
        StampsGrow(data[offset..], stamps - i, stampHeaders);
        if offset + 12 > |data| {
          return false;
        }
        var timestamp := Get64(data[offset..offset + 8]);
        var sampleCount: int := Get32(data[offset + 8..offset + 12]);
        offset := offset + 12;
        var samples;
        offset, samples, ok := SampleLoop(data, offset, sampleCount);
        if !ok {
          return;
        }
        stampHeaders := stampHeaders + [Stamp(timestamp, samples)];
        i := i + 1;
      }
      NothingLeft(data[offset..]);
      PrintDecode(data);
      ok := true;
    }
  }

  /** Nothing left to read. */
  lemma NothingLeft(s: seq<byte>)
    ensures DecodeStamps(s, 0) == Progress([], s, true)
    ensures DecodeSamples(s, 0) == Progress([], s, true)
  {
  }

  /** The inner loop of UnmarshalBinary: the samples of one stamp. */
  method SampleLoop(data: seq<byte>, start: nat, sampleCount: nat)
    returns (offset: nat, samples: seq<Sample>, ok: bool)
    requires start <= |data|
    ensures start <= offset <= |data|
    ensures DecodeSamples(data[start..], sampleCount) == Progress(samples, data[offset..], ok)
  {
    hide Get32, ReadSample, DecodeSamples;
    offset, samples := start, [];
    var j: nat := 0;
    while j < sampleCount
      invariant j <= sampleCount && start <= offset <= |data|
      invariant var rest := DecodeSamples(data[offset..], sampleCount - j);
                DecodeSamples(data[start..], sampleCount) == rest.(items := samples + rest.items)
    {
      ReadSampleAt(data, offset);
      SamplesGrow(data[offset..], sampleCount - j, samples);
      if offset + 8 > |data| {
        return offset, samples, false;
      }
      var handle := Get32(data[offset..offset + 4]);
      var sampleSize: int := Get32(data[offset + 4..offset + 8]);
      if offset + 8 + sampleSize > |data| {
        return offset, samples, false;
      }
      samples := samples + [Sample(handle, data[offset + 8..offset + 8 + sampleSize])];
      offset := offset + 8 + sampleSize;
      j := j + 1;
    }
    NothingLeft(data[offset..]);
    ok := true;
  }
}
