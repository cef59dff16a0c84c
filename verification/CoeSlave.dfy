/** An SDO server in a slave (section 5.6 of ETG.1000.6), written independently of the master, and what the
    master's transfers do with it: any buffer arrives, any value comes back however the server splits it. */
module CoeSlave {
  import opened Words
  import opened ErrorCodes
  import opened ByteBuffers
  import opened Mailbox
  import opened CoeTransfer

  datatype Key = Key(index: u16, subindex: byte, complete: bool)

  /** A transfer that is under way: segments of a download that have arrived, or of an upload to be fetched. */
  datatype Mode = Idle | Down(key: Key, got: seq<byte>, toggle: bool) | Up(rest: seq<seq<byte>>, toggle: bool)

  datatype Server = Server(objects: map<Key, seq<byte>>, mode: Mode)

  /** What is left open: how a value is cut into chunks for an upload, whether a short one is sent expedited, and
      whether a download ends with the announced number of bytes (`counts`) or, as here, with the last segment. */
  datatype Style = Style(cut: seq<byte> -> seq<seq<byte>>, expedite: seq<byte> -> bool, counts: bool)

  const ABORT_CODE: u32 := 0x0800_0000

  /** The slave answers with `d`, or not at all if `d` is no regular answer. */
  function Respond(m: Mail, d: seq<byte>): (r: Reply) {
    if |d| < 0x1_0000 then
      MailArrives(Frame(Mail(m.station, TYPE_COE, d)), Mail(m.station, TYPE_COE, d));
      var box := Box(Frame(Mail(m.station, TYPE_COE, d)));
      if Regular(box) then box else Failed(-3)
    else Failed(-3)
  }

  function Abort(s: Server, m: Mail): (Server, Reply) {
    (s.(mode := Idle), Respond(m, [0, 0x20, 0x80, 0, 0, 0] + Le32(ABORT_CODE)))
  }

  function Serve(style: Style, s: Server, m: Mail): (Server, Reply) {
    var d := m.data;
    if m.dtype != TYPE_COE || |d| < 10 || d[1] / 0x10 != 2 then Abort(s, m)
    else if d[2] / 0x20 == 0 then ServeSegment(s, m)
    else if d[2] / 0x20 == 1 then ServeDownload(style, s, m)
    else if d[2] / 0x20 == 2 then ServeUpload(style, s, m)
    else if d[2] / 0x20 == 3 then ServeNext(s, m)
    else Abort(s, m)
  }

  function KeyOf(d: seq<byte>): Key
    requires |d| >= 6
  {
    Key(ReadU16(d, 3), d[5], (d[2] / 0x10) % 2 == 1)
  }

  /** Initiate SDO download, expedited or normal. After a normal request segments may follow. */
  function ServeDownload(style: Style, s: Server, m: Mail): (Server, Reply)
    requires |m.data| >= 10
  {
    var d := m.data;
    var answer := Respond(m, [0, 0x30, 0x60, d[3], d[4], d[5], 0, 0, 0, 0]);
    if (d[2] / 2) % 2 == 1 then
      var size := if d[2] % 2 == 1 then 4 - (d[2] / 4) % 4 else 4;
      (Server(s.objects[KeyOf(d) := d[6..6 + size]], Idle), answer)
    else
      var all := style.counts && ReadU32(d, 6) <= |d| - 10;
      (Server(s.objects[KeyOf(d) := d[10..]], if all then Idle else Down(KeyOf(d), d[10..], false)), answer)
  }

  /** Download SDO segment: the toggle must alternate; the last segment completes the object. */
  function ServeSegment(s: Server, m: Mail): (Server, Reply)
    requires |m.data| >= 10
  {
    var d := m.data;
    var toggle := (d[2] / 0x10) % 2 == 1;
    if !s.mode.Down? || s.mode.toggle != toggle then Abort(s, m)
    else
      var got := s.mode.got + d[3..if |d| == 10 then 10 - (d[2] / 2) % 8 else |d|];
      var answer := Respond(m, [0, 0x30, 0x20 + 0x10 * Bit(toggle), 0, 0, 0, 0, 0, 0, 0]);
      if d[2] % 2 == 1 then (Server(s.objects[s.mode.key := got], Idle), answer)
      else (s.(mode := Down(s.mode.key, got, !toggle)), answer)
  }

  function ExpeditedAnswer(id: seq<byte>, v: seq<byte>): seq<byte>
    requires 1 <= |v| <= 4
  {
    [0, 0x30, 0x43 + 4 * (4 - |v|)] + id + v + Zeros(4 - |v|)
  }

  function NormalAnswer(id: seq<byte>, total: u32, chunk: seq<byte>): seq<byte> {
    [0, 0x30, 0x41] + id + Le32(total) + chunk
  }

  function SegmentAnswer(chunk: seq<byte>, toggle: bool, last: bool): seq<byte> {
    [0, 0x30, SegmentByte(last, Padding(chunk), toggle, 0)] + chunk + Zeros(Padding(chunk))
  }

  /** Initiate SDO upload: expedited, or normal with the first chunk. */
  function ServeUpload(style: Style, s: Server, m: Mail): (Server, Reply)
    requires |m.data| >= 10
  {
    var d := m.data;
    var k := KeyOf(d);
    if k !in s.objects then Abort(s, m)
    else
      var v := s.objects[k];
      var id := [d[3], d[4], d[5]];
      if 1 <= |v| <= 4 && style.expedite(v) then
        (s.(mode := Idle), Respond(m, ExpeditedAnswer(id, v)))
      else
        var chunks := style.cut(v);
        if chunks == [] || |v| >= 0x1_0000_0000 then Abort(s, m)
        else
          (s.(mode := if |chunks| > 1 then Up(chunks[1..], false) else Idle),
           Respond(m, NormalAnswer(id, |v|, chunks[0])))
  }

  /** Upload SDO segment */
  function ServeNext(s: Server, m: Mail): (Server, Reply)
    requires |m.data| >= 10
  {
    var toggle := (m.data[2] / 0x10) % 2 == 1;
    if !s.mode.Up? || s.mode.rest == [] || s.mode.toggle != toggle then Abort(s, m)
    else
      var chunk, last := s.mode.rest[0], |s.mode.rest| == 1;
      (s.(mode := if last then Idle else Up(s.mode.rest[1..], !toggle)),
       Respond(m, SegmentAnswer(chunk, toggle, last)))
  }

  /** The server as a partner of the master. */
  function LinkTo(style: Style, station: u16, rx: nat): Link<Server> {
    Link((s: Server, m: Mail) => Serve(style, s, m), station, rx)
  }

  // ----- how the answers read -----

  lemma AskServer(style: Style, station: u16, rx: nat, s: Server, request: seq<byte>, least: nat)
    requires least >= 6
    ensures var r := Serve(style, s, Mail(station, TYPE_COE, request));
      Ask(LinkTo(style, station, rx), s, request, least)
      == Answer(r.0, Accept(r.1, least).ret, Accept(r.1, least).data)
  {
    hide Serve, Accept;
  }

  lemma Understood(m: Mail, d: seq<byte>, least: nat)
    requires 6 <= least <= |d| < 0x1_0000 && d[1] / 0x10 == 3
    requires |d| >= 10 ==> !StallingSegment(d) && !TooMuchAtOnce(d)
    ensures Accept(Respond(m, d), least) == Heard(0, d)
  {
    hide Frame, ReadMail, Holds;
    var mail := Mail(m.station, TYPE_COE, d);
    HoldsAll(Frame(mail));
    MailArrives(Frame(mail), mail);
  }

  lemma HoldsAll(b: seq<byte>)
    ensures Holds(b, 0, b)
  {
  }

  lemma AbortHeard(s: Server, m: Mail, least: nat)
    requires 6 <= least <= 10
    ensures Abort(s, m).0 == s.(mode := Idle) && Accept(Abort(s, m).1, least) == Heard(-EC_ERR_COE_ABORT, [])
  {
    hide Frame, ReadMail, Holds, Le32;
    var d := [0, 0x20, 0x80, 0, 0, 0] + Le32(ABORT_CODE);
    var mail := Mail(m.station, TYPE_COE, d);
    HoldsAll(Frame(mail));
    MailArrives(Frame(mail), mail);
    assert ReadU16(d, 0) == 0x2000 && d[2] == 0x80 && |d| == 10;
  }

  // ----- download -----

  lemma SegmentByteRead(flag: bool, segSize: nat, toggle: bool, command: nat)
    requires segSize < 8 && command < 8
    ensures var b := SegmentByte(flag, segSize, toggle, command);
      b % 2 == Bit(flag) && (b / 2) % 8 == segSize && (b / 0x10) % 2 == Bit(toggle) && b / 0x20 == command
  {
    var b: int := SegmentByte(flag, segSize, toggle, command);
    var upper := Bit(toggle) + 2 * command;
    var middle := segSize + 8 * upper;
    hide Bit, SegmentByte;
    assert b == Bit(flag) + 2 * middle && b / 2 == middle && b / 0x10 == upper && b / 0x20 == command;
  }

  lemma SegmentRead(chunk: seq<byte>, toggle: bool, last: bool)
    ensures var d := SegmentRequest(chunk, toggle, last);
      && |d| >= 10 && d[1] / 0x10 == 2 && d[2] / 0x20 == 0 && (d[2] % 2 == 1 <==> last)
      && ((d[2] / 0x10) % 2 == 1 <==> toggle)
      && d[3..if |d| == 10 then 10 - (d[2] / 2) % 8 else |d|] == chunk
  {
    hide SegmentByte;
    SegmentByteRead(last, Padding(chunk), toggle, 0);
  }

  /** The server takes a segment exactly if its toggle is the one it waits for. */
  lemma SegmentServed(style: Style, station: u16, rx: nat, s: Server, chunk: seq<byte>, toggle: bool, last: bool)
    ensures SendSegment(LinkTo(style, station, rx), s, chunk, toggle, last) ==
      if !s.mode.Down? || s.mode.toggle != toggle then Done(s.(mode := Idle), -EC_ERR_COE_ABORT)
      else
        var got := s.mode.got + chunk;
        Done(if last then Server(s.objects[s.mode.key := got], Idle) else s.(mode := Down(s.mode.key, got, !toggle)), 0)
  {
    hide SegmentRequest, Accept, Respond, Abort, LinkTo, Ask;
    var d := SegmentRequest(chunk, toggle, last);
    var m := Mail(station, TYPE_COE, d);
    SegmentRead(chunk, toggle, last);
    AskServer(style, station, rx, s, d, 6);
    AbortHeard(s, m, 6);
    Understood(m, [0, 0x30, 0x20 + 0x10 * Bit(toggle), 0, 0, 0, 0, 0, 0, 0], 6);
  }

  /** All segments of `rest` arrive. */
  lemma {:induction false} SegmentsArrive(style: Style, station: u16, rx: nat, s: Server, rest: seq<byte>, max: nat,
                                          toggle: bool)
    requires max > 0 && s.mode.Down? && s.mode.toggle == toggle
    ensures SendSegments(LinkTo(style, station, rx), s, rest, max, toggle)
         == Done(Server(s.objects[s.mode.key := s.mode.got + rest], Idle), 0)
    decreases |rest|
  {
    hide SendSegment, LinkTo;
    SegmentsStep(LinkTo(style, station, rx), s, rest, max, toggle);
    if |rest| <= max {
      SegmentServed(style, station, rx, s, rest, toggle, true);
    } else {
      SegmentServed(style, station, rx, s, rest[..max], toggle, false);
      var got := s.mode.got + rest[..max];
      SegmentsArrive(style, station, rx, s.(mode := Down(s.mode.key, got, !toggle)), rest[max..], max, !toggle);
      assert got + rest[max..] == s.mode.got + rest;
    }
  }

  lemma ExpeditedRead(index: u16, subindex: byte, complete: bool, buf: seq<byte>)
    requires |buf| <= 4
    ensures var d := ExpeditedRequest(index, subindex, complete, buf);
      && d[1] / 0x10 == 2 && d[2] / 0x20 == 1 && (d[2] / 2) % 2 == 1 && d[2] % 2 == 1
      && KeyOf(d) == Key(index, if complete then 0 else subindex, complete)
      && d[6..6 + (4 - (d[2] / 4) % 4)] == if buf == [] then Zeros(4) else buf
  {
  }

  lemma NormalRead(index: u16, subindex: byte, complete: bool, buf: seq<byte>)
    requires |buf| < 0x1_0000_0000
    ensures var d := NormalRequest(index, subindex, complete, buf);
      && d[1] / 0x10 == 2 && d[2] / 0x20 == 1 && (d[2] / 2) % 2 == 0
      && KeyOf(d) == Key(index, if complete then 0 else subindex, complete)
      && ReadU32(d, 6) == |buf| && d[10..] == buf
  {
    hide Le32;
    var d := NormalRequest(index, subindex, complete, buf);
    assert d[6..10] == Le32(|buf|);
    HoldsLe32(d, 6, |buf|);
  }

  function StoredKey(index: u16, subindex: byte, complete: bool): Key {
    Key(index, if complete then 0 else subindex, complete)
  }

  lemma DownloadServed(style: Style, s: Server, m: Mail)
    requires |m.data| >= 10
    ensures var r, d := ServeDownload(style, s, m).0, m.data;
      if (d[2] / 2) % 2 == 1 then
        r == Server(s.objects[KeyOf(d) := d[6..6 + if d[2] % 2 == 1 then 4 - (d[2] / 4) % 4 else 4]], Idle)
      else
        && r.objects == s.objects[KeyOf(d) := d[10..]]
        && r.mode == if style.counts && ReadU32(d, 6) <= |d| - 10 then Idle else Down(KeyOf(d), d[10..], false)
  {
    hide Respond;
  }

  /** An initiating request stores its data; the master accepts the confirmation unless it asked for complete
      access with a subindex other than 0. */
  lemma InitiateServed(style: Style, station: u16, rx: nat, s: Server, index: u16, subindex: byte, complete: bool,
                       d: seq<byte>)
    requires |d| >= 10 && d[1] / 0x10 == 2 && d[2] / 0x20 == 1 && KeyOf(d) == StoredKey(index, subindex, complete)
    ensures Initiate(LinkTo(style, station, rx), s, index, subindex, d)
         == Done(ServeDownload(style, s, Mail(station, TYPE_COE, d)).0,
                 if complete && subindex != 0 then -EC_ERR_COE_REQUEST else 0)
  {
    hide Accept, Respond, Ask, LinkTo;
    var m := Mail(station, TYPE_COE, d);
    AskServer(style, station, rx, s, d, 6);
    Understood(m, [0, 0x30, 0x60, d[3], d[4], d[5], 0, 0, 0, 0], 6);
  }

  /** ec_coe_download with a server that goes by the last segment. The call succeeds exactly if it does not combine
      complete access with a non-zero subindex; then the object holds the buffer, in one piece, whatever its size and
      whatever the server was doing before. An empty buffer is the one exception: it is stored as four zero bytes. */
  lemma DownloadArrives(style: Style, station: u16, rx: nat, s: Server, index: u16, subindex: byte, buf: seq<byte>,
                        complete: bool)
    requires rx >= HEADERS && |buf| < 0x1_0000_0000 && !style.counts
    ensures var r := Download(LinkTo(style, station, rx), s, index, subindex, buf, complete);
      && (r.ret == 0 <==> !complete || subindex == 0)
      && (r.ret == 0 ==>
            r.state.objects == s.objects[StoredKey(index, subindex, complete) := if buf == [] then Zeros(4) else buf])
  {
    hide Initiate, SendSegments, ExpeditedRequest, NormalRequest, ServeDownload;
    var link := LinkTo(style, station, rx);
    var max := rx - HEADERS;
    if |buf| <= 4 {
      ExpeditedRead(index, subindex, complete, buf);
      InitiateServed(style, station, rx, s, index, subindex, complete,
                     ExpeditedRequest(index, subindex, complete, buf));
      DownloadServed(style, s, Mail(station, TYPE_COE, ExpeditedRequest(index, subindex, complete, buf)));
    } else if |buf| <= max {
      NormalRead(index, subindex, complete, buf);
      InitiateServed(style, station, rx, s, index, subindex, complete, NormalRequest(index, subindex, complete, buf));
      DownloadServed(style, s, Mail(station, TYPE_COE, NormalRequest(index, subindex, complete, buf)));
    } else {
      var first := buf[..max];
      NormalRead(index, subindex, complete, first);
      InitiateServed(style, station, rx, s, index, subindex, complete, NormalRequest(index, subindex, complete, first));
      DownloadServed(style, s, Mail(station, TYPE_COE, NormalRequest(index, subindex, complete, first)));
      var d := Initiate(link, s, index, subindex, NormalRequest(index, subindex, complete, first));
      assert d.state.mode == Down(StoredKey(index, subindex, complete), first, false);
      SegmentsArrive(style, station, rx, d.state, buf[max..], max + 7, false);
      assert first + buf[max..] == buf;
    }
  }

  /** With a server that counts the announced bytes, larger buffers than one mailbox never arrive: the first
      request announces only its own chunk, and the server aborts the first segment. */
  lemma DownloadToCountingServer(style: Style, station: u16, rx: nat, s: Server, index: u16, subindex: byte,
                                 buf: seq<byte>, complete: bool)
    requires rx >= HEADERS && |buf| < 0x1_0000_0000 && style.counts
    ensures var r := Download(LinkTo(style, station, rx), s, index, subindex, buf, complete);
      && (r.ret == 0 <==> (!complete || subindex == 0) && (|buf| <= 4 || |buf| + HEADERS <= rx))
      && (r.ret == 0 ==>
            r.state.objects == s.objects[StoredKey(index, subindex, complete) := if buf == [] then Zeros(4) else buf])
  {
    hide Initiate, SendSegments, SendSegment, ExpeditedRequest, NormalRequest, ServeDownload;
    var link := LinkTo(style, station, rx);
    var max := rx - HEADERS;
    if |buf| <= 4 {
      ExpeditedRead(index, subindex, complete, buf);
      InitiateServed(style, station, rx, s, index, subindex, complete,
                     ExpeditedRequest(index, subindex, complete, buf));
      DownloadServed(style, s, Mail(station, TYPE_COE, ExpeditedRequest(index, subindex, complete, buf)));
    } else {
      var first := if |buf| <= max then buf else buf[..max];
      NormalRead(index, subindex, complete, first);
      InitiateServed(style, station, rx, s, index, subindex, complete, NormalRequest(index, subindex, complete, first));
      DownloadServed(style, s, Mail(station, TYPE_COE, NormalRequest(index, subindex, complete, first)));
      if |buf| > max {
        var d := Initiate(link, s, index, subindex, NormalRequest(index, subindex, complete, first));
        var rest, m := buf[max..], max + 7;
        SegmentsStep(link, d.state, rest, m, false);
        SegmentServed(style, station, rx, d.state, if |rest| <= m then rest else rest[..m], false, |rest| <= m);
      }
    }
  }

  // ----- upload -----

  ghost predicate Segments(c: seq<seq<byte>>) {
    forall i :: 0 <= i < |c| ==> 0 < |c[i]| && |c[i]| + 10 < 0x1_0000
  }

  /** The chunks make up the value, and those after the first one are segments. */
  ghost predicate CutsWell(style: Style, v: seq<byte>) {
    var c := style.cut(v);
    c != [] && Joined(c) == v && |c[0]| + 10 < 0x1_0000 && Segments(c[1..])
  }

  lemma NextRead(toggle: bool)
    ensures var d := UploadSegmentRequest(toggle);
      |d| == 10 && d[1] / 0x10 == 2 && d[2] / 0x20 == 3 && ((d[2] / 0x10) % 2 == 1 <==> toggle)
  {
    hide SegmentByte;
    SegmentByteRead(false, 0, toggle, 3);
  }

  lemma UploadRead(index: u16, subindex: byte, complete: bool)
    ensures var d := UploadRequest(index, subindex, complete);
      && |d| == 10 && d[1] / 0x10 == 2 && d[2] / 0x20 == 2 && KeyOf(d) == StoredKey(index, subindex, complete)
      && d[3..6] == Object(index, subindex, complete)
  {
  }

  lemma SegmentAnswerRead(chunk: seq<byte>, toggle: bool, last: bool)
    requires 0 < |chunk|
    ensures var d := SegmentAnswer(chunk, toggle, last);
      && 10 <= |d| <= 10 + |chunk| && d[1] / 0x10 == 3 && IsResponse(d, 0) && SegmentData(d) == chunk &&
           (d[2] % 2 == 1 <==> last)
      && !StallingSegment(d) && !TooMuchAtOnce(d)
  {
    hide SegmentByte;
    SegmentByteRead(last, Padding(chunk), toggle, 0);
  }

  lemma NextServed(style: Style, station: u16, rx: nat, s: Server, toggle: bool)
    requires s.mode.Up? && s.mode.toggle == toggle && s.mode.rest != [] && Segments(s.mode.rest)
    ensures var chunk, last := s.mode.rest[0], |s.mode.rest| == 1;
      Ask(LinkTo(style, station, rx), s, UploadSegmentRequest(toggle), 10)
      == Answer(s.(mode := if last then Idle else Up(s.mode.rest[1..], !toggle)), 0, SegmentAnswer(chunk, toggle, last))
  {
    hide Accept, Respond, Ask, LinkTo, UploadSegmentRequest, StallingSegment, TooMuchAtOnce, SegmentAnswer, Abort;
    var chunk, last := s.mode.rest[0], |s.mode.rest| == 1;
    NextRead(toggle);
    AskServer(style, station, rx, s, UploadSegmentRequest(toggle), 10);
    SegmentAnswerRead(chunk, toggle, last);
    Understood(Mail(station, TYPE_COE, UploadSegmentRequest(toggle)), SegmentAnswer(chunk, toggle, last), 10);
  }

  /** Fetching all segments. */
  lemma {:induction false} FetchAll(style: Style, station: u16, rx: nat, s: Server, got: seq<byte>, toggle: bool)
    requires s.mode.Up? && s.mode.toggle == toggle && s.mode.rest != [] && Segments(s.mode.rest)
    ensures var v := got + Joined(s.mode.rest);
      Fetch(LinkTo(style, station, rx), s, got, |v|, toggle) == Got(s.(mode := Idle), 0, v)
    decreases |s.mode.rest|
  {
    hide Fetch, Ask, LinkTo, SegmentAnswer, SegmentData, StallingSegment, TooMuchAtOnce;
    var rest := s.mode.rest;
    var v := got + Joined(rest);
    FetchStep(LinkTo(style, station, rx), s, got, |v|, toggle);
    NextServed(style, station, rx, s, toggle);
    SegmentAnswerRead(rest[0], toggle, |rest| == 1);
    var more := got + rest[0];
    assert v == more + Joined(rest[1..]);
    if |rest| == 1 {
      assert rest[1..] == [];
    } else {
      FetchAll(style, station, rx, s.(mode := Up(rest[1..], !toggle)), more, !toggle);
    }
  }

  lemma ExpeditedAnswerRead(index: u16, subindex: byte, complete: bool, v: seq<byte>)
    requires 1 <= |v| <= 4
    ensures var d := ExpeditedAnswer(Object(index, subindex, complete), v);
      && |d| == 10 && d[1] / 0x10 == 3 && IsResponse(d, 2) && !StallingSegment(d) && !TooMuchAtOnce(d)
      && ReadU16(d, 3) == index && d[5] == (if complete then 0 else subindex)
      && (d[2] / 2) % 2 == 1 && ExpeditedSize(d[2]) == |v| && d[6..6 + |v|] == v
  {
  }

  lemma NormalAnswerRead(index: u16, subindex: byte, complete: bool, total: u32, chunk: seq<byte>)
    requires |chunk| <= total
    ensures var d := NormalAnswer(Object(index, subindex, complete), total, chunk);
      && |d| == 10 + |chunk| && d[1] / 0x10 == 3 && IsResponse(d, 2) && !StallingSegment(d) && !TooMuchAtOnce(d)
      && ReadU16(d, 3) == index && d[5] == (if complete then 0 else subindex)
      && (d[2] / 2) % 2 == 0 && ReadU32(d, 6) == total && d[10..] == chunk
  {
    hide Le32;
    var d := NormalAnswer(Object(index, subindex, complete), total, chunk);
    assert d[6..10] == Le32(total);
    HoldsLe32(d, 6, total);
  }

  /** What the master hears after an upload request. */
  lemma UploadServed(style: Style, station: u16, rx: nat, s: Server, index: u16, subindex: byte, complete: bool)
    requires var k := StoredKey(index, subindex, complete);
      k in s.objects ==>
        && |s.objects[k]| < 0x1_0000_0000 && CutsWell(style, s.objects[k])
        && |style.cut(s.objects[k])[0]| <= |s.objects[k]|
    ensures var k, id := StoredKey(index, subindex, complete), Object(index, subindex, complete);
      Ask(LinkTo(style, station, rx), s, UploadRequest(index, subindex, complete), 6) ==
      if k !in s.objects then Answer(s.(mode := Idle), -EC_ERR_COE_ABORT, [])
      else
        var v, c := s.objects[k], style.cut(s.objects[k]);
        if 1 <= |v| <= 4 && style.expedite(v) then Answer(s.(mode := Idle), 0, ExpeditedAnswer(id, v))
        else Answer(s.(mode := if |c| > 1 then Up(c[1..], false) else Idle), 0, NormalAnswer(id, |v|, c[0]))
  {
    hide Accept, Respond, Ask, LinkTo, UploadRequest, StallingSegment, TooMuchAtOnce, Le32, Abort, NormalAnswer,
      ExpeditedAnswer;
    var k, id := StoredKey(index, subindex, complete), Object(index, subindex, complete);
    var d := UploadRequest(index, subindex, complete);
    var m := Mail(station, TYPE_COE, d);
    UploadRead(index, subindex, complete);
    assert [d[3], d[4], d[5]] == id;
    AskServer(style, station, rx, s, d, 6);
    AbortHeard(s, m, 6);
    if k in s.objects {
      var v, c := s.objects[k], style.cut(s.objects[k]);
      if 1 <= |v| <= 4 && style.expedite(v) {
        ExpeditedAnswerRead(index, subindex, complete, v);
        Understood(m, ExpeditedAnswer(id, v), 6);
      } else {
        NormalAnswerRead(index, subindex, complete, |v|, c[0]);
        Understood(m, NormalAnswer(id, |v|, c[0]), 6);
      }
    }
  }

  lemma FirstChunk(style: Style, v: seq<byte>)
    requires CutsWell(style, v)
    ensures var c := style.cut(v);
      |c[0]| <= |v| && v == c[0] + Joined(c[1..]) && (|c[0]| == |v| <==> |c| == 1) && (|c| == 1 ==> v == c[0])
  {
    var c := style.cut(v);
    if |c| > 1 {
      var first := c[1..][0];
      assert |first| > 0;
    } else {
      assert c[1..] == [];
    }
  }

  /** ec_coe_upload gets exactly the value of an existing object, however the server cuts it into segments, and succeeds
      exactly if the value fits into the caller's buffer; the objects stay as they are. */
  lemma UploadReturns(style: Style, station: u16, rx: nat, s: Server, index: u16, subindex: byte, complete: bool,
                      maxsize: nat)
    requires var k := StoredKey(index, subindex, complete);
      k in s.objects ==> |s.objects[k]| < 0x1_0000_0000 && CutsWell(style, s.objects[k])
    ensures var k := StoredKey(index, subindex, complete);
      var r := Upload(LinkTo(style, station, rx), s, index, subindex, complete, maxsize);
      && r.state.objects == s.objects
      && (r.ret == 0 <==> k in s.objects && |s.objects[k]| <= maxsize)
      && (r.ret == 0 ==> r.value == s.objects[k])
      && (k !in s.objects ==> r.ret == -EC_ERR_COE_ABORT)
      && (k in s.objects && |s.objects[k]| > maxsize ==> r.ret == -EC_ERR_COE_SIZE)
  {
    hide Ask, LinkTo, UploadRequest, Fetch, StallingSegment, TooMuchAtOnce, ExpeditedAnswer, NormalAnswer, CutsWell,
      Joined;
    var k := StoredKey(index, subindex, complete);
    if k in s.objects {
      var v, c := s.objects[k], style.cut(s.objects[k]);
      CutsInto(style, v);
      FirstChunk(style, v);
      UploadServed(style, station, rx, s, index, subindex, complete);
      if 1 <= |v| <= 4 && style.expedite(v) {
        ExpeditedAnswerRead(index, subindex, complete, v);
      } else {
        NormalAnswerRead(index, subindex, complete, |v|, c[0]);
        if |c| > 1 {
          FetchAll(style, station, rx, s.(mode := Up(c[1..], false)), c[0], false);
        }
      }
    } else {
      UploadServed(style, station, rx, s, index, subindex, complete);
    }
  }

  lemma CutsInto(style: Style, v: seq<byte>)
    requires CutsWell(style, v)
    ensures style.cut(v) != [] && Segments(style.cut(v)[1..])
  {
  }

  /** An upload writes behind the caller's buffer exactly if the server sends an object of up to four bytes expedited
      that is larger than the buffer. */
  lemma UploadOverrunsIff(style: Style, station: u16, rx: nat, s: Server, index: u16, subindex: byte, complete: bool,
                          maxsize: nat)
    requires var k := StoredKey(index, subindex, complete);
      k in s.objects ==> |s.objects[k]| < 0x1_0000_0000 && CutsWell(style, s.objects[k])
    ensures var k := StoredKey(index, subindex, complete);
      Overruns(LinkTo(style, station, rx), s, index, subindex, complete, maxsize)
      <==> k in s.objects && maxsize < |s.objects[k]| <= 4 && style.expedite(s.objects[k])
  {
    hide Ask, LinkTo, UploadRequest, StallingSegment, TooMuchAtOnce, ExpeditedAnswer, NormalAnswer, CutsWell, Joined;
    var k := StoredKey(index, subindex, complete);
    if k in s.objects {
      var v, c := s.objects[k], style.cut(s.objects[k]);
      CutsInto(style, v);
      FirstChunk(style, v);
      UploadServed(style, station, rx, s, index, subindex, complete);
      if 1 <= |v| <= 4 && style.expedite(v) {
        ExpeditedAnswerRead(index, subindex, complete, v);
      } else {
        NormalAnswerRead(index, subindex, complete, |v|, c[0]);
      }
    } else {
      UploadServed(style, station, rx, s, index, subindex, complete);
    }
  }

  /** For instance an object of four bytes for which the caller has room for two: the third byte behind the start of the
      buffer is one of the answer. */
  lemma UploadOverruns(station: u16, rx: nat)
    ensures var style := Style((v: seq<byte>) => [v], (v: seq<byte>) => true, false);
      var s := Server(map[Key(0x1018, 1, false) := [1, 2, 3, 4]], Idle);
      var link := LinkTo(style, station, rx);
      && Overruns(link, s, 0x1018, 1, false, 2)
      && UploadAnswer(link, s, 0x1018, 1, false).data[8..10] == [3, 4]
  {
    hide Ask, LinkTo, UploadRequest, ExpeditedAnswer, NormalAnswer, Overruns, StallingSegment, TooMuchAtOnce;
    var style := Style((v: seq<byte>) => [v], (v: seq<byte>) => true, false);
    var v := [1, 2, 3, 4];
    var s := Server(map[Key(0x1018, 1, false) := v], Idle);
    assert Joined([v]) == v + Joined([v][1..]);
    UploadOverrunsIff(style, station, rx, s, 0x1018, 1, false, 2);
    UploadServed(style, station, rx, s, 0x1018, 1, false);
    ExpeditedAnswerRead(0x1018, 1, false, v);
    var d := ExpeditedAnswer(Object(0x1018, 1, false), v);
    assert d[8..10] == d[6..10][2..4];
  }

  /** Downloading a buffer and uploading the object again is the identity, unless complete access is combined with a
      subindex. */
  lemma DownloadThenUpload(
    style: Style, station: u16, rx: nat, s: Server, index: u16, subindex: byte, complete: bool, buf: seq<byte>,
      maxsize: nat)
    requires rx >= HEADERS && 1 <= |buf| < 0x1_0000_0000 && !style.counts && CutsWell(style, buf) && |buf| <= maxsize
    requires !complete || subindex == 0
    ensures var link := LinkTo(style, station, rx);
      var r := Download(link, s, index, subindex, buf, complete);
      var u := Upload(link, r.state, index, subindex, complete, maxsize);
      r.ret == 0 && u.ret == 0 && u.value == buf
  {
    hide Download, Upload, CutsWell;
    DownloadArrives(style, station, rx, s, index, subindex, buf, complete);
    var r := Download(LinkTo(style, station, rx), s, index, subindex, buf, complete);
    UploadReturns(style, station, rx, r.state, index, subindex, complete, maxsize);
  }
}
