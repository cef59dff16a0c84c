/** SDO transfers on the master's side (src/ec_coe.c:46-523): the requests, the two entry points with
    their loops, and what they do with any slave at all. */
module CoeTransfer {
  import opened Words
  import opened ErrorCodes
  import opened ByteBuffers
  import opened Mailbox

  const SEG_MIN_DATA_SIZE: nat := 7

  // ----- requests -----

  function Bit(b: bool): nat {
    if b then 1 else 0
  }

  /** CoE header of an SDO request and the command byte. */
  function Start(command: byte): (h: seq<byte>)
    ensures |h| == 3
  {
    [0x00, 0x20, command]
  }

  function Object(index: u16, subindex: byte, complete: bool): (h: seq<byte>)
    ensures |h| == 3
  {
    Le16(index) + [if complete then 0 else subindex]
  }

  /** size_indicator, transfertype, data_set_size (two bits), complete_access, command */
  function CommonByte(sized: bool, expedited: bool, setSize: nat, complete: bool, command: nat): byte
    requires command < 8
  {
    Bit(sized) + 2 * Bit(expedited) + 4 * (setSize % 4) + 0x10 * Bit(complete) + 0x20 * command
  }

  /** more_follows, segdata_size (three bits), toggle, command */
  function SegmentByte(flag: bool, segSize: nat, toggle: bool, command: nat): byte
    requires command < 8
  {
    Bit(flag) + 2 * (segSize % 8) + 0x10 * Bit(toggle) + 0x20 * command
  }

  function ExpeditedRequest(index: u16, subindex: byte, complete: bool, buf: seq<byte>): (r: seq<byte>)
    requires |buf| <= 4
    ensures |r| == 10
  {
    Start(CommonByte(true, true, 4 - |buf|, complete, 1)) + Object(index, subindex, complete) + buf + Zeros(4 - |buf|)
  }

  function NormalRequest(index: u16, subindex: byte, complete: bool, buf: seq<byte>): (r: seq<byte>)
    requires |buf| < 0x1_0000_0000
    ensures |r| == 10 + |buf|
  {
    Start(CommonByte(true, false, 0, complete, 1)) + Object(index, subindex, complete) + Le32(|buf|) + buf
  }

  /** A segment of at most seven bytes is padded and says how many bytes are padding. */
  function SegmentRequest(chunk: seq<byte>, toggle: bool, last: bool): (r: seq<byte>)
    ensures |r| == 3 + if |chunk| > SEG_MIN_DATA_SIZE then |chunk| else SEG_MIN_DATA_SIZE
  {
    Start(SegmentByte(last, Padding(chunk), toggle, 0)) + chunk + Zeros(Padding(chunk))
  }

  function Padding(chunk: seq<byte>): nat {
    if |chunk| > SEG_MIN_DATA_SIZE then 0 else SEG_MIN_DATA_SIZE - |chunk|
  }

  function UploadRequest(index: u16, subindex: byte, complete: bool): (r: seq<byte>)
    ensures |r| == 10
  {
    Start(CommonByte(false, false, 0, complete, 2)) + Object(index, subindex, complete) + Zeros(4)
  }

  function UploadSegmentRequest(toggle: bool): (r: seq<byte>)
    ensures |r| == 10
  {
    Start(SegmentByte(false, 0, toggle, 3)) + Zeros(7)
  }

  // ----- talking to a slave -----

  /** A slave is its reaction to a mail in a state of its own; `rx` is the size of the mailbox it reads. */
  datatype Link<!S> = Link(serve: (S, Mail) -> (S, Reply), station: u16, rx: nat)

  datatype Answer<S> = Answer(state: S, ret: int, data: seq<byte>)

  function Ask<S>(link: Link<S>, s: S, request: seq<byte>, least: nat): (a: Answer<S>)
    requires least >= 6
    ensures a.ret <= 0 && (a.ret == 0 ==> |a.data| >= least)
    ensures a.ret == 0 && |a.data| >= 10 ==> !StallingSegment(a.data) && !TooMuchAtOnce(a.data)
  {
    var r := link.serve(s, Mail(link.station, TYPE_COE, request));
    var h := Accept(r.1, least);
    Answer(r.0, h.ret, h.data)
  }

  /** ec_mailbox_send and ec_mailbox_receive with the tests that always follow. */
  method Exchange<S>(link: Link<S>, data: array<byte>, s: S, ghost request: seq<byte>, least: nat)
    returns (a: Answer<S>)
    requires least >= 6 && link.rx <= data.Length && |request| + MBOX_HEADER_SIZE <= link.rx <= 0xFFFF
    requires Holds(data[..], 0, Frame(Mail(link.station, TYPE_COE, request)))
    ensures a == Ask(link, s, request, least)
  {
    var box := data[..link.rx];
    assert Holds(box, 0, Frame(Mail(link.station, TYPE_COE, request))) by {
      assert box[..|request| + MBOX_HEADER_SIZE] == data[..][..|request| + MBOX_HEADER_SIZE];
    }
    MailArrives(box, Mail(link.station, TYPE_COE, request));
    var r := link.serve(s, ReadMail(box));
    var h := Accept(r.1, least);
    a := Answer(r.0, h.ret, h.data);
  }

  // ----- download -----

  function IsResponse(d: seq<byte>, command: nat): bool
    requires |d| >= 6
  {
    ReadU16(d, 0) / 0x1000 == 3 && d[2] / 0x20 == command
  }

  /** The answer to an initiating request. Note that `subindex` is compared as it was given, although a request
      with complete access carries 0. */
  function Confirmed(d: seq<byte>, index: u16, subindex: byte): int
    requires |d| >= 6
  {
    if !IsResponse(d, 3) || ReadU16(d, 3) != index || d[5] != subindex then -EC_ERR_COE_REQUEST else 0
  }

  function SegmentConfirmed(d: seq<byte>, toggle: bool): int
    requires |d| >= 6
  {
    if !IsResponse(d, 1) then -EC_ERR_COE_REQUEST
    else if (d[2] / 0x10) % 2 != Bit(toggle) then -EC_ERR_COE_TOGGLE
    else 0
  }

  datatype Done<S> = Done(state: S, ret: int)

  function Initiate<S>(link: Link<S>, s: S, index: u16, subindex: byte, request: seq<byte>): Done<S> {
    var a := Ask(link, s, request, 6);
    Done(a.state, if a.ret < 0 then a.ret else Confirmed(a.data, index, subindex))
  }

  function SendSegment<S>(link: Link<S>, s: S, chunk: seq<byte>, toggle: bool, last: bool): Done<S> {
    var a := Ask(link, s, SegmentRequest(chunk, toggle, last), 6);
    Done(a.state, if a.ret < 0 then a.ret else SegmentConfirmed(a.data, toggle))
  }

  /** The segments of `rest`: as large as possible, the toggle alternates, the last one is marked. */
  function SendSegments<S>(link: Link<S>, s: S, rest: seq<byte>, max: nat, toggle: bool): Done<S>
    requires max > 0
    decreases |rest|
  {
    if |rest| <= max then SendSegment(link, s, rest, toggle, true)
    else
      var d := SendSegment(link, s, rest[..max], toggle, false);
      if d.ret < 0 then d else SendSegments(link, d.state, rest[max..], max, !toggle)
  }

  const HEADERS: nat := 16  // EC_MBOX_HEADER_SIZE + EC_COE_DOWN_REQ_HEADER_SIZE

  function Download<S>(link: Link<S>, s: S, index: u16, subindex: byte, buf: seq<byte>, complete: bool): Done<S>
    requires link.rx >= HEADERS && |buf| < 0x1_0000_0000
  {
    var max := link.rx - HEADERS;
    if |buf| <= 4 then Initiate(link, s, index, subindex, ExpeditedRequest(index, subindex, complete, buf))
    else if |buf| <= max then Initiate(link, s, index, subindex, NormalRequest(index, subindex, complete, buf))
    else
      var d := Initiate(link, s, index, subindex, NormalRequest(index, subindex, complete, buf[..max]));
      if d.ret < 0 then d else SendSegments(link, d.state, buf[max..], max + 7, false)
  }

  lemma FrameIs(link: u16, request: seq<byte>)
    requires |request| < 0x1_0000
    ensures Frame(Mail(link, TYPE_COE, request)) == Head(link, TYPE_COE, |request|) + request
  {
  }

  method AppendBytes(data: array<byte>, ghost v: seq<byte>, at: nat, w: seq<byte>)
    requires Holds(data[..], 0, v) && at == |v| && |v| + |w| <= data.Length
    modifies data
    ensures Holds(data[..], 0, v + w)
  {
    WrittenBehind(data[..], v, w);
    WriteBytes(data, at, w);
  }

  /** ec_coe_download_expedited */
  method DownloadExpedited<S>(link: Link<S>, data: array<byte>, s: S, index: u16, subindex: byte, buf: seq<byte>,
                              complete: bool)
    returns (d: Done<S>)
    requires |buf| <= 4 && HEADERS <= link.rx <= data.Length && link.rx <= 0xFFFF
    modifies data
    ensures d == Initiate(link, s, index, subindex, ExpeditedRequest(index, subindex, complete, buf))
  {
    hide Holds, Head;
    ghost var request := ExpeditedRequest(index, subindex, complete, buf);
    FillSend(data, link.rx, link.station, TYPE_COE, 10);
    ghost var v := Head(link.station, TYPE_COE, 10);
    var start := Start(CommonByte(true, true, 4 - |buf|, complete, 1)) + Object(index, subindex, complete);
    AppendBytes(data, v, 6, start);
    AppendBytes(data, v + start, 12, buf);
    AppendBytes(data, v + start + buf, 12 + |buf|, Zeros(4 - |buf|));
    assert v + start + buf + Zeros(4 - |buf|) == v + request;
    FrameIs(link.station, request);
    var a := Exchange(link, data, s, request, 6);
    if a.ret < 0 {
      return Done(a.state, a.ret);
    }
    if !IsResponse(a.data, 3) || ReadU16(a.data, 3) != index || a.data[5] != subindex {
      return Done(a.state, -EC_ERR_COE_REQUEST);
    }
    d := Done(a.state, 0);
  }

  /** ec_coe_download_common */
  method DownloadCommon<S>(link: Link<S>, data: array<byte>, s: S, index: u16, subindex: byte, buf: seq<byte>,
                           complete: bool)
    returns (d: Done<S>)
    requires HEADERS + |buf| <= link.rx <= data.Length && link.rx <= 0xFFFF
    modifies data
    ensures d == Initiate(link, s, index, subindex, NormalRequest(index, subindex, complete, buf))
  {
    hide Holds, Head, Le32;
    ghost var request := NormalRequest(index, subindex, complete, buf);
    FillSend(data, link.rx, link.station, TYPE_COE, |buf| + 10);
    ghost var v := Head(link.station, TYPE_COE, |buf| + 10);
    var start := Start(CommonByte(true, false, 0, complete, 1)) + Object(index, subindex, complete);
    AppendBytes(data, v, 6, start);
    AppendBytes(data, v + start, 12, Le32(|buf|));
    AppendBytes(data, v + start + Le32(|buf|), 16, buf);
    assert v + start + Le32(|buf|) + buf == v + request;
    FrameIs(link.station, request);
    var a := Exchange(link, data, s, request, 6);
    if a.ret < 0 {
      return Done(a.state, a.ret);
    }
    if !IsResponse(a.data, 3) || ReadU16(a.data, 3) != index || a.data[5] != subindex {
      return Done(a.state, -EC_ERR_COE_REQUEST);
    }
    d := Done(a.state, 0);
  }

  /** ec_coe_download_segment */
  method DownloadSegment<S>(link: Link<S>, data: array<byte>, s: S, chunk: seq<byte>, toggle: bool, last: bool)
    returns (d: Done<S>)
    requires HEADERS <= link.rx <= data.Length && 9 + |chunk| <= link.rx <= 0xFFFF
    modifies data
    ensures d == SendSegment(link, s, chunk, toggle, last)
  {
    hide Holds, Head;
    var segSize, dataSize;
    if |chunk| > SEG_MIN_DATA_SIZE {
      segSize, dataSize := 0, |chunk|;
    } else {
      segSize, dataSize := SEG_MIN_DATA_SIZE - |chunk|, SEG_MIN_DATA_SIZE;
    }
    ghost var request := SegmentRequest(chunk, toggle, last);
    FillSend(data, link.rx, link.station, TYPE_COE, dataSize + 3);
    ghost var v := Head(link.station, TYPE_COE, dataSize + 3);
    var start := Start(SegmentByte(last, segSize, toggle, 0));
    AppendBytes(data, v, 6, start);
    AppendBytes(data, v + start, 9, chunk);
    if |chunk| < SEG_MIN_DATA_SIZE {
      AppendBytes(data, v + start + chunk, 9 + |chunk|, Zeros(SEG_MIN_DATA_SIZE - |chunk|));
      assert v + start + chunk + Zeros(Padding(chunk)) == v + request;
    } else {
      assert v + start + chunk == v + request;
    }
    FrameIs(link.station, request);
    var a := Exchange(link, data, s, request, 6);
    if a.ret < 0 {
      return Done(a.state, a.ret);
    }
    if !IsResponse(a.data, 1) {
      return Done(a.state, -EC_ERR_COE_REQUEST);
    }
    if (a.data[2] / 0x10) % 2 != Bit(toggle) {
      return Done(a.state, -EC_ERR_COE_TOGGLE);
    }
    d := Done(a.state, 0);
  }

  /** ec_coe_download; that no request is larger than the mailbox is the precondition of the methods it calls. */
  method CoeDownload<S>(link: Link<S>, data: array<byte>, s: S, index: u16, subindex: byte, buf: seq<byte>,
                        complete: bool)
    returns (d: Done<S>)
    requires HEADERS <= link.rx <= data.Length && link.rx <= 0xFFFF && |buf| < 0x1_0000_0000
    modifies data
    ensures d == Download(link, s, index, subindex, buf, complete)
  {
    hide Initiate, SendSegment, SendSegments, ExpeditedRequest, NormalRequest;
    if |buf| <= 4 {
      d := DownloadExpedited(link, data, s, index, subindex, buf, complete);
      return;
    }
    var max := link.rx - MBOX_HEADER_SIZE - 10;
    if |buf| <= max {
      d := DownloadCommon(link, data, s, index, subindex, buf, complete);
      return;
    }
    d := DownloadCommon(link, data, s, index, subindex, buf[..max], complete);
    if d.ret < 0 {
      return;
    }
    var ptr := max;
    var size := |buf| - max;
    var toggle, last := false, false;
    max := max + 7;
    ghost var first := d;
    while true
      invariant ptr + size == |buf| && size > 0 && !last && max == link.rx - 9
      invariant SendSegments(link, d.state, buf[ptr..], max, toggle) ==
        SendSegments(link, first.state, buf[link.rx - 16..], max, false)
      decreases size
    {
      SegmentsStep(link, d.state, buf[ptr..], max, toggle);
      var segSize := Min(size, max);
      if size <= max {
        last := true;
      }
      assert buf[ptr..][..size] == buf[ptr..];
      assert buf[ptr..ptr + segSize] == buf[ptr..][..segSize] && buf[ptr..][segSize..] == buf[ptr + segSize..];
      d := DownloadSegment(link, data, d.state, buf[ptr..ptr + segSize], toggle, last);
      if d.ret < 0 {
        return;
      }
      ptr := ptr + segSize;
      size := size - segSize;
      toggle := !toggle;
      if size == 0 {
        return;
      }
    }
  }

  lemma SegmentsStep<S>(link: Link<S>, s: S, rest: seq<byte>, max: nat, toggle: bool)
    requires max > 0
    ensures SendSegments(link, s, rest, max, toggle) ==
      if |rest| <= max then SendSegment(link, s, rest, toggle, true)
      else
        var d := SendSegment(link, s, rest[..max], toggle, false);
        if d.ret < 0 then d else SendSegments(link, d.state, rest[max..], max, !toggle)
  {
    hide SendSegment;
  }

  function Joined(c: seq<seq<byte>>): seq<byte> {
    if c == [] then [] else c[0] + Joined(c[1..])
  }

  // ----- the segments of a download -----

  datatype Segment = Segment(chunk: seq<byte>, toggle: bool, last: bool)

  function Split(rest: seq<byte>, max: nat, toggle: bool): (r: seq<Segment>)
    requires max > 0
    ensures r != []
    decreases |rest|
  {
    if |rest| <= max then [Segment(rest, toggle, true)]
    else [Segment(rest[..max], toggle, false)] + Split(rest[max..], max, !toggle)
  }

  function Chunks(segments: seq<Segment>): (c: seq<seq<byte>>)
    ensures |c| == |segments|
  {
    seq(|segments|, i requires 0 <= i < |segments| => segments[i].chunk)
  }

  /** The segments of a download fit with their header into the mailbox, alternate the toggle, and only the final one is
      marked as the last. */
  lemma {:induction false} SegmentsAre(rest: seq<byte>, max: nat, toggle: bool, i: nat)
    requires max > 0 && i < |Split(rest, max, toggle)|
    ensures var r := Split(rest, max, toggle);
      && |r[i].chunk| <= max && (i < |r| - 1 ==> |r[i].chunk| == max) && (rest != [] ==> r[i].chunk != [])
      && r[i].toggle == (toggle == (i % 2 == 0)) && r[i].last == (i == |r| - 1)
    decreases |rest|
  {
    if |rest| > max && i > 0 {
      SegmentsAre(rest[max..], max, !toggle, i - 1);
    }
  }

  /** The requests of a segmented download fill the slave's mailbox completely; only the last one may be shorter. */
  lemma RequestsFillMailbox(rx: nat, index: u16, subindex: byte, complete: bool, buf: seq<byte>, i: nat)
    requires HEADERS <= rx && rx - HEADERS < |buf| < 0x1_0000_0000 && i < |Split(buf[rx - HEADERS..], rx - 9, false)|
    ensures MBOX_HEADER_SIZE + |NormalRequest(index, subindex, complete, buf[..rx - HEADERS])| == rx
    ensures var r := Split(buf[rx - HEADERS..], rx - 9, false);
      var size := MBOX_HEADER_SIZE + |SegmentRequest(r[i].chunk, r[i].toggle, r[i].last)|;
      size <= rx && (i < |r| - 1 ==> size == rx)
  {
    SegmentsAre(buf[rx - HEADERS..], rx - 9, false, i);
  }

  /** Together they are the rest of the buffer. */
  lemma {:induction false} SegmentsJoin(rest: seq<byte>, max: nat, toggle: bool)
    requires max > 0
    ensures Joined(Chunks(Split(rest, max, toggle))) == rest
    decreases |rest|
  {
    if |rest| <= max {
      assert Chunks(Split(rest, max, toggle)) == [rest];
      assert Joined([rest]) == rest + Joined([rest][1..]);
    } else {
      var t := Split(rest[max..], max, !toggle);
      SegmentsJoin(rest[max..], max, !toggle);
      assert Chunks(Split(rest, max, toggle)) == [rest[..max]] + Chunks(t);
      assert ([rest[..max]] + Chunks(t))[1..] == Chunks(t);
    }
  }

  /** Segment by segment until one is not confirmed. */
  function SendAll<S>(link: Link<S>, s: S, segments: seq<Segment>): Done<S>
    decreases |segments|
  {
    if segments == [] then Done(s, 0)
    else
      var d := SendSegment(link, s, segments[0].chunk, segments[0].toggle, segments[0].last);
      if d.ret < 0 || |segments| == 1 then d else SendAll(link, d.state, segments[1..])
  }

  /** To any slave at all, ec_coe_download sends exactly these segments, in order. */
  lemma {:induction false} SendsTheSplit<S>(link: Link<S>, s: S, rest: seq<byte>, max: nat, toggle: bool)
    requires max > 0
    ensures SendSegments(link, s, rest, max, toggle) == SendAll(link, s, Split(rest, max, toggle))
    decreases |rest|
  {
    hide SendSegment;
    SegmentsStep(link, s, rest, max, toggle);
    if |rest| > max {
      var d := SendSegment(link, s, rest[..max], toggle, false);
      var t := Split(rest[max..], max, !toggle);
      assert Split(rest, max, toggle)[1..] == t;
      SendsTheSplit(link, d.state, rest[max..], max, !toggle);
    }
  }

  // ----- upload -----

  datatype Got<S> = Got(state: S, ret: int, value: seq<byte>)

  /** The data of an upload segment: one of ten bytes says how many of its seven bytes are padding. */
  function SegmentData(d: seq<byte>): (c: seq<byte>)
    requires |d| >= 10
  {
    d[3..if |d| == 10 then 10 - (d[2] / 2) % 8 else |d|]
  }

  /** The answers to the segment requests, appended to what has been got so far. */
  function Fetch<S>(link: Link<S>, s: S, got: seq<byte>, total: nat, toggle: bool): (r: Got<S>)
    requires |got| <= total
    ensures r.ret == 0 ==> |r.value| == total
    decreases total - |got|
  {
    var a := Ask(link, s, UploadSegmentRequest(toggle), 10);
    if a.ret < 0 then Got(a.state, a.ret, got)
    else if !IsResponse(a.data, 0) then Got(a.state, -EC_ERR_COE_REQUEST, got)
    else
      var more := got + SegmentData(a.data);
      if |more| > total then Got(a.state, -EC_ERR_COE_SIZE, got)
      else if a.data[2] % 2 == 1 then Got(a.state, if |more| != total then -EC_ERR_COE_SIZE else 0, more)
      else Fetch(link, a.state, more, total, !toggle)
  }

  /** The size of an expedited answer. */
  function ExpeditedSize(command: byte): nat {
    if command % 2 == 1 then 4 - (command / 4) % 4 else 4
  }

  /** The slave's answer to an upload request. */
  function UploadAnswer<S>(link: Link<S>, s: S, index: u16, subindex: byte, complete: bool): (a: Answer<S>)
    ensures a.ret <= 0 && (a.ret == 0 ==> |a.data| >= 6)
    ensures a.ret == 0 && |a.data| >= 10 ==> !TooMuchAtOnce(a.data)
  {
    Ask(link, s, UploadRequest(index, subindex, complete), 6)
  }

  /** What becomes of an answer that is not expedited. */
  function Collect<S>(link: Link<S>, a: Answer<S>, maxsize: nat): (r: Got<S>)
    requires |a.data| >= 6 && (|a.data| >= 10 ==> !TooMuchAtOnce(a.data))
    requires IsResponse(a.data, 2) && (a.data[2] / 2) % 2 == 0
    ensures r.ret == 0 ==> |r.value| <= maxsize
  {
    if |a.data| < 10 || maxsize < ReadU32(a.data, 6) then Got(a.state, -EC_ERR_COE_SIZE, [])
    else if |a.data[10..]| < ReadU32(a.data, 6) then Fetch(link, a.state, a.data[10..], ReadU32(a.data, 6), false)
    else Got(a.state, 0, a.data[10..])
  }

  /** ec_coe_upload; the value is what the caller's buffer holds on success. */
  function Upload<S>(link: Link<S>, s: S, index: u16, subindex: byte, complete: bool, maxsize: nat): (r: Got<S>)
    ensures r.ret == 0 ==> |r.value| <= maxsize
  {
    var a := UploadAnswer(link, s, index, subindex, complete);
    if a.ret < 0 then Got(a.state, a.ret, [])
    else if !IsResponse(a.data, 2) then Got(a.state, -EC_ERR_COE_REQUEST, [])
    else if ReadU16(a.data, 3) != index || a.data[5] != (if complete then 0 else subindex) then
      Got(a.state, -EC_ERR_COE_REQUEST, [])
    else if (a.data[2] / 2) % 2 == 1 then
      var total := ExpeditedSize(a.data[2]);
      if |a.data| < total + 6 || maxsize < total then Got(a.state, -EC_ERR_COE_SIZE, [])
      else Got(a.state, 0, a.data[6..6 + total])
    else Collect(link, a, maxsize)
  }

  /** An expedited answer to this request, with as many bytes as it says. */
  predicate Expedited(d: seq<byte>, index: u16, subindex: byte, complete: bool)
    requires |d| >= 6
  {
    && IsResponse(d, 2) && ReadU16(d, 3) == index && d[5] == (if complete then 0 else subindex)
    && (d[2] / 2) % 2 == 1 && |d| >= ExpeditedSize(d[2]) + 6
  }

  /** The answer is expedited and larger than the caller's buffer. */
  predicate Overruns<S>(link: Link<S>, s: S, index: u16, subindex: byte, complete: bool, maxsize: nat) {
    var a := UploadAnswer(link, s, index, subindex, complete);
    a.ret == 0 && Expedited(a.data, index, subindex, complete) && maxsize < ExpeditedSize(a.data[2])
  }

  method AskUpload<S>(link: Link<S>, data: array<byte>, s: S, index: u16, subindex: byte, complete: bool)
    returns (a: Answer<S>)
    requires HEADERS <= link.rx <= data.Length && link.rx <= 0xFFFF
    modifies data
    ensures a == UploadAnswer(link, s, index, subindex, complete)
  {
    hide Holds, Head;
    ghost var request := UploadRequest(index, subindex, complete);
    FillSend(data, link.rx, link.station, TYPE_COE, 10);
    ghost var v := Head(link.station, TYPE_COE, 10);
    var start := Start(CommonByte(false, false, 0, complete, 2)) + Object(index, subindex, complete);
    AppendBytes(data, v, 6, start);
    AppendBytes(data, v + start, 12, Zeros(4));
    assert v + start + Zeros(4) == v + request;
    FrameIs(link.station, request);
    a := Exchange(link, data, s, request, 6);
  }

  method AskSegment<S>(link: Link<S>, data: array<byte>, s: S, toggle: bool) returns (a: Answer<S>)
    requires HEADERS <= link.rx <= data.Length && link.rx <= 0xFFFF
    modifies data
    ensures a == Ask(link, s, UploadSegmentRequest(toggle), 10)
  {
    hide Holds, Head;
    ghost var request := UploadSegmentRequest(toggle);
    FillSend(data, link.rx, link.station, TYPE_COE, 10);
    ghost var v := Head(link.station, TYPE_COE, 10);
    var start := Start(SegmentByte(false, 0, toggle, 3));
    AppendBytes(data, v, 6, start);
    AppendBytes(data, v + start, 9, Zeros(7));
    assert v + start + Zeros(7) == v + request;
    FrameIs(link.station, request);
    a := Exchange(link, data, s, request, 10);
  }

  /** ec_coe_upload: `into` is the memory from the caller's buffer of `maxsize` bytes on. An expedited answer is copied
      before its size is compared with `maxsize`, so that exactly if it is larger, its last bytes land behind the
      buffer; otherwise nothing there changes. */
  method CoeUpload<S>(link: Link<S>, data: array<byte>, s: S, index: u16, subindex: byte, complete: bool,
                      into: array<byte>, maxsize: nat)
    returns (d: Done<S>, size: nat)
    requires HEADERS <= link.rx <= data.Length && link.rx <= 0xFFFF
    requires into != data && maxsize <= into.Length
    requires Overruns(link, s, index, subindex, complete, maxsize) ==>
      ExpeditedSize(UploadAnswer(link, s, index, subindex, complete).data[2]) <= into.Length
    modifies data, into
    ensures var r := Upload(link, s, index, subindex, complete, maxsize);
      && d == Done(r.state, r.ret) && (r.ret == 0 ==> size == |r.value| && size <= maxsize && into[..size] == r.value)
    ensures !Overruns(link, s, index, subindex, complete, maxsize) ==>
      forall i :: maxsize <= i < into.Length ==> into[i] == old(into[i])
    ensures Overruns(link, s, index, subindex, complete, maxsize) ==>
      var answer := UploadAnswer(link, s, index, subindex, complete).data;
      && d.ret == -EC_ERR_COE_SIZE
      && forall i :: maxsize <= i < into.Length ==>
           into[i] == if i < ExpeditedSize(answer[2]) then answer[6 + i] else old(into[i])
  {
    hide UploadAnswer, Collect, ReadU16;
    size := 0;
    var a := AskUpload(link, data, s, index, subindex, complete);
    d := Done(a.state, a.ret);
    if a.ret < 0 {
      return;
    }
    if !IsResponse(a.data, 2) {
      return Done(a.state, -EC_ERR_COE_REQUEST), 0;
    }
    if ReadU16(a.data, 3) != index || a.data[5] != (if complete then 0 else subindex) {
      return Done(a.state, -EC_ERR_COE_REQUEST), 0;
    }
    if (a.data[2] / 2) % 2 == 1 {
      var ret;
      ret, size := StoreExpedited(a.data, into, maxsize);
      d := Done(a.state, ret);
    } else {
      d, size := StoreNormal(link, data, a, into, maxsize);
    }
  }

  /** The branch of ec_coe_upload for an expedited answer. */
  method StoreExpedited(d: seq<byte>, into: array<byte>, maxsize: nat) returns (ret: int, size: nat)
    requires |d| >= 6 && maxsize <= into.Length
    requires ExpeditedSize(d[2]) + 6 <= |d| ==> ExpeditedSize(d[2]) <= into.Length
    modifies into
    ensures var total := ExpeditedSize(d[2]);
      if |d| < total + 6 then ret == -EC_ERR_COE_SIZE && into[..] == old(into[..])
      else
        && ret == (if maxsize < total then -EC_ERR_COE_SIZE else 0) &&
             (ret == 0 ==> size == total && into[..size] == d[6..6 + total])
        && forall i :: 0 <= i < into.Length ==> into[i] == if i < total then d[6 + i] else old(into[i])
  {
    size := 0;
    var total := if d[2] % 2 == 1 then 4 - (d[2] / 4) % 4 else 4;
    if |d| < total + 6 {
      return -EC_ERR_COE_SIZE, 0;
    }
    CopyIn(into, 0, d[6..6 + total]);
    forall i | 0 <= i < total ensures into[i] == d[6 + i] {
      assert into[i] == into[..total][i] == d[6..6 + total][i];
    }
    if maxsize < total {
      return -EC_ERR_COE_SIZE, 0;
    }
    return 0, total;
  }

  /** The branch for a normal or segmented one. */
  method StoreNormal<S>(link: Link<S>, data: array<byte>, a: Answer<S>, into: array<byte>, maxsize: nat)
    returns (d: Done<S>, size: nat)
    requires HEADERS <= link.rx <= data.Length && link.rx <= 0xFFFF && into != data && maxsize <= into.Length
    requires |a.data| >= 6 && (|a.data| >= 10 ==> !TooMuchAtOnce(a.data))
    requires IsResponse(a.data, 2) && (a.data[2] / 2) % 2 == 0
    modifies data, into
    ensures var r := Collect(link, a, maxsize);
      && d == Done(r.state, r.ret) && (r.ret == 0 ==> size == |r.value| && size <= maxsize && into[..size] == r.value)
    ensures forall i :: maxsize <= i < into.Length ==> into[i] == old(into[i])
  {
    hide Fetch, ReadU32, ReadU16;
    if |a.data| < 10 || maxsize < ReadU32(a.data, 6) {
      return Done(a.state, -EC_ERR_COE_SIZE), 0;
    }
    var total := ReadU32(a.data, 6);
    d := Done(a.state, 0);
    CopyIn(into, 0, a.data[10..]);
    if |a.data[10..]| < total {
      d := FetchSegments(link, data, a.state, into, |a.data[10..]|, total, a.data[10..]);
    }
    size := total;
  }

  method CopyIn(into: array<byte>, at: nat, w: seq<byte>)
    requires at + |w| <= into.Length
    modifies into
    ensures into[..at + |w|] == old(into[..at]) + w
    ensures forall i :: at + |w| <= i < into.Length ==> into[i] == old(into[i])
  {
    forall i | 0 <= i < |w| {
      into[at + i] := w[i];
    }
  }

  lemma FetchStep<S>(link: Link<S>, s: S, got: seq<byte>, total: nat, toggle: bool)
    requires |got| <= total
    ensures var a := Ask(link, s, UploadSegmentRequest(toggle), 10);
      && (a.ret < 0 ==> Fetch(link, s, got, total, toggle) == Got(a.state, a.ret, got))
      && (a.ret == 0 && !IsResponse(a.data, 0) ==>
          Fetch(link, s, got, total, toggle) == Got(a.state, -EC_ERR_COE_REQUEST, got))
      && (a.ret == 0 && IsResponse(a.data, 0) ==>
            var more := got + SegmentData(a.data);
            if |more| > total then Fetch(link, s, got, total, toggle) == Got(a.state, -EC_ERR_COE_SIZE, got)
            else if a.data[2] % 2 == 1 then
              Fetch(link, s, got, total, toggle) == Got(a.state, if |more| != total then -EC_ERR_COE_SIZE else 0, more)
            else |more| > |got| && Fetch(link, s, got, total, toggle) == Fetch(link, a.state, more, total, !toggle))
  {
    hide Ask;
  }

  /** The loop of ec_coe_upload. */
  method FetchSegments<S>(link: Link<S>, data: array<byte>, s: S, into: array<byte>, have: nat, total: nat,
                          ghost first: seq<byte>)
    returns (d: Done<S>)
    requires HEADERS <= link.rx <= data.Length && link.rx <= 0xFFFF && into != data
    requires have < total <= into.Length && into[..have] == first
    modifies data, into
    ensures var r := Fetch(link, s, first, total, false);
      d == Done(r.state, r.ret) && (r.ret == 0 ==> into[..total] == r.value)
    ensures forall i :: total <= i < into.Length ==> into[i] == old(into[i])
  {
    hide Fetch, Ask, UploadSegmentRequest;
    var offset := have;
    var toggle := false;
    var state := s;
    while true
      invariant offset <= total
      invariant Fetch(link, state, into[..offset], total, toggle) == Fetch(link, s, first, total, false)
      invariant forall i :: total <= i < into.Length ==> into[i] == old(into[i])
      decreases total - offset
    {
      FetchStep(link, state, into[..offset], total, toggle);
      var a := AskSegment(link, data, state, toggle);
      d := Done(a.state, a.ret);
      if a.ret < 0 {
        return;
      }
      if !IsResponse(a.data, 0) {
        return Done(a.state, -EC_ERR_COE_REQUEST);
      }
      var dataSize := |a.data| - 3;
      if |a.data| == 10 {
        dataSize := dataSize - (a.data[2] / 2) % 8;
      }
      if offset + dataSize > total {
        return Done(a.state, -EC_ERR_COE_SIZE);
      }
      CopyIn(into, offset, a.data[3..3 + dataSize]);
      offset := offset + dataSize;
      toggle := !toggle;
      state := a.state;
      if a.data[2] % 2 == 1 {
        return Done(a.state, if offset != total then -EC_ERR_COE_SIZE else 0);
      }
    }
  }
}
