/** SDO transfers byte by byte (src/ec_mailbox.c:8-132, src/ec_coe.c:46-523; the layouts are in sections 5.6.1 and 5.6.2
    of ETG.1000.6): what the requests say, which route a download takes, and which answers are taken. */
module CoeBytes {
  import opened Words
  import opened ErrorCodes
  import opened ByteBuffers
  import opened Mailbox
  import opened CoeTransfer

  function One(b: bool): nat {
    if b then 1 else 0
  }

  /** The object that a request is about: index and subindex, which is 0 with complete access. */
  predicate Names(r: seq<byte>, index: u16, subindex: byte, complete: bool) {
    && |r| >= 6 && r[0] == 0x00 && r[1] == 0x20
    && r[3] as int + 0x100 * r[4] as int == index && r[5] == if complete then 0 else subindex
  }

  predicate ZerosFrom(r: seq<byte>, i: nat) {
    forall k :: i <= k < |r| ==> r[k] == 0
  }

  // ----- the requests -----

  lemma ObjectNames(command: byte, index: u16, subindex: byte, complete: bool, rest: seq<byte>)
    ensures var r := Start(command) + Object(index, subindex, complete) + rest;
      Names(r, index, subindex, complete) && r[2] == command && r[6..] == rest
  {
    var r := Start(command) + Object(index, subindex, complete) + rest;
    assert r[3] == index % 0x100 && r[4] == index / 0x100;
  }

  /** At most four bytes in the request itself; two bits say how many of them are not used. */
  lemma ExpeditedSays(index: u16, subindex: byte, complete: bool, buf: seq<byte>)
    requires |buf| <= 4
    ensures var r := ExpeditedRequest(index, subindex, complete, buf);
      && |r| == 10 && Names(r, index, subindex, complete)
      && r[2] == 0x23 + 0x10 * One(complete) + (if 1 <= |buf| then 4 * (4 - |buf|) else 0)
      && r[6..6 + |buf|] == buf && ZerosFrom(r, 6 + |buf|)
  {
    var command := CommonByte(true, true, 4 - |buf|, complete, 1);
    ObjectNames(command, index, subindex, complete, buf + Zeros(4 - |buf|));
    var r := ExpeditedRequest(index, subindex, complete, buf);
    assert r == Start(command) + Object(index, subindex, complete) + (buf + Zeros(4 - |buf|));
    assert r[6..][..|buf|] == buf;
    assert forall k :: 6 + |buf| <= k < 10 ==> r[k] == r[6..][k - 6];
  }

  /** The size of what is in the request, and the bytes. */
  lemma NormalSays(index: u16, subindex: byte, complete: bool, buf: seq<byte>)
    requires |buf| < 0x1_0000_0000
    ensures var r := NormalRequest(index, subindex, complete, buf);
      && |r| == 10 + |buf| && Names(r, index, subindex, complete)
      && r[2] == 0x21 + 0x10 * One(complete)
      && r[6] as int + 0x100 * r[7] as int + 0x1_0000 * r[8] as int + 0x100_0000 * r[9] as int == |buf|
      && r[10..] == buf
  {
    var command := CommonByte(true, false, 0, complete, 1);
    ObjectNames(command, index, subindex, complete, Le32(|buf|) + buf);
    var r := NormalRequest(index, subindex, complete, buf);
    assert r == Start(command) + Object(index, subindex, complete) + (Le32(|buf|) + buf);
    assert r[6..][..4] == Le32(|buf|) && r[6..][4..] == buf;
    LittleEndian(|buf|);
    assert r[6] == Le32(|buf|)[0] && r[7] == Le32(|buf|)[1] && r[8] == Le32(|buf|)[2] && r[9] == Le32(|buf|)[3];
  }

  lemma LittleEndian(v: u32)
    ensures var b := Le32(v);
      b[0] as int + 0x100 * b[1] as int + 0x1_0000 * b[2] as int + 0x100_0000 * b[3] as int == v
  {
    var v1: int := v / 0x100;
    var v2: int := v1 / 0x100;
    assert v / 0x1_0000 == v2 && v / 0x100_0000 == v2 / 0x100;
  }

  /** A segment: three bits say how many of at least seven bytes are not used, and one bit that it is the last. */
  lemma SegmentSays(chunk: seq<byte>, toggle: bool, last: bool)
    ensures var r := SegmentRequest(chunk, toggle, last);
      && |r| == (if |chunk| < 7 then 10 else 3 + |chunk|) && r[0] == 0x00 && r[1] == 0x20
      && r[2] == One(last) + 0x10 * One(toggle) + (if |chunk| < 7 then 2 * (7 - |chunk|) else 0)
      && r[3..3 + |chunk|] == chunk && ZerosFrom(r, 3 + |chunk|)
  {
  }

  lemma UploadSays(index: u16, subindex: byte, complete: bool)
    ensures var r := UploadRequest(index, subindex, complete);
      |r| == 10 && Names(r, index, subindex, complete) && r[2] == 0x40 + 0x10 * One(complete) && ZerosFrom(r, 6)
  {
    ObjectNames(CommonByte(false, false, 0, complete, 2), index, subindex, complete, Zeros(4));
  }

  lemma NextSegmentSays(toggle: bool)
    ensures var r := UploadSegmentRequest(toggle);
      |r| == 10 && r[0] == 0x00 && r[1] == 0x20 && r[2] == 0x60 + 0x10 * One(toggle) && ZerosFrom(r, 3)
  {
  }

  /** The mailbox around a request. */
  lemma MailSays(station: u16, request: seq<byte>)
    requires |request| < 0x1_0000
    ensures var f := Frame(Mail(station, TYPE_COE, request));
      && |f| == 6 + |request| && f[0] as int + 0x100 * f[1] as int == |request|
      && f[2] as int + 0x100 * f[3] as int == station && f[4] == 0 && f[5] == 0x03 && f[6..] == request
  {
    var h := Head(station, TYPE_COE, |request|);
    var f := h + request;
    assert f[0] == h[0] && f[1] == h[1] && f[2] == h[2] && f[3] == h[3];
  }

  // ----- which route a download takes -----

  /** A slave that does not answer and remembers what it was sent. */
  function Deaf(station: u16, rx: nat): Link<seq<Mail>> {
    Link((s: seq<Mail>, m: Mail) => (s + [m], Failed(-1)), station, rx)
  }

  /** The first request: up to four bytes go in an expedited one, up to what fits into the mailbox behind its headers in
      a normal one; of more bytes as many as fit go first. */
  lemma FirstRequest(station: u16, rx: nat, index: u16, subindex: byte, buf: seq<byte>, complete: bool)
    requires rx >= 16 && |buf| < 0x1_0000_0000
    ensures var sent := Download(Deaf(station, rx), [], index, subindex, buf, complete).state;
      && |sent| == 1 && sent[0].station == station && sent[0].dtype == 0x03
      && var r := sent[0].data;
      && |r| >= 10 && Names(r, index, subindex, complete)
      && (if |buf| <= 4 then |r| == 10 && r[6..6 + |buf|] == buf && (r[2] / 2) % 2 == 1
          else (r[2] / 2) % 2 == 0 && r[10..] == if |buf| <= rx - 16 then buf else buf[..rx - 16])
  {
    hide ExpeditedRequest, NormalRequest;
    if |buf| <= 4 {
      ExpeditedSays(index, subindex, complete, buf);
      assert 0x23 / 2 % 2 == 1;
    } else {
      NormalSays(index, subindex, complete, if |buf| <= rx - 16 then buf else buf[..rx - 16]);
    }
  }

  // ----- which answers are taken -----

  lemma ServiceIs(d: seq<byte>)
    requires |d| >= 3
    ensures ReadU16(d, 0) / 0x1000 == d[1] / 0x10
  {
    var low: int := d[0];
    var high: int := d[1];
    assert low + 0x100 * high == 0x1000 * (high / 0x10) + (0x100 * (high % 0x10) + low);
  }

  /** A mailbox is taken if it carries CoE, is long enough, and is no abort. */
  lemma MailboxTaken(b: seq<byte>, least: nat)
    requires least >= 6 && Regular(Box(b))
    ensures |b| >= 6 && b[0] as int + 0x100 * b[1] as int + 6 <= |b|
    ensures var d := b[6..6 + b[0] as int + 0x100 * b[1] as int];
      var h := Accept(Box(b), least);
      h == if b[5] % 0x10 == 0 then Heard(-9, [])
           else if b[5] % 0x10 != 3 then Heard(-11, [])
           else if |d| < least then Heard(-12, [])
           else if d[1] / 0x10 == 2 && d[2] / 0x20 == 4 then Heard(-15, [])
           else Heard(0, d)
  {
    var d := b[6..6 + b[0] as int + 0x100 * b[1] as int];
    assert ReadMail(b).data == d;
    if |d| >= least {
      ServiceIs(d);
    }
  }

  /** The answer to the first request of a download must be the confirmation, and for this object. */
  lemma ConfirmationTaken(d: seq<byte>, index: u16, subindex: byte)
    requires |d| >= 6
    ensures Confirmed(d, index, subindex) ==
      if d[1] / 0x10 == 3 && d[2] / 0x20 == 3 && d[3] as int + 0x100 * d[4] as int == index && d[5] == subindex
      then 0 else -13
  {
    ServiceIs(d);
  }

  /** The answer to a segment must be a confirmation with the segment's toggle. */
  lemma SegmentAnswerTaken(d: seq<byte>, toggle: bool)
    requires |d| >= 6
    ensures SegmentConfirmed(d, toggle) ==
      if d[1] / 0x10 != 3 || d[2] / 0x20 != 1 then -13
      else if (d[2] / 0x10) % 2 != One(toggle) then -14
      else 0
  {
    ServiceIs(d);
  }

  /** What is taken as the answer to an upload request, and the value of an expedited one. */
  lemma UploadTaken<S>(link: Link<S>, s: S, index: u16, subindex: byte, complete: bool, maxsize: nat)
    ensures var a := UploadAnswer(link, s, index, subindex, complete);
      var u := Upload(link, s, index, subindex, complete, maxsize);
      a.ret == 0 ==>
        var d := a.data;
        var taken := d[1] / 0x10 == 3 && d[2] / 0x20 == 2 && d[3] as int + 0x100 * d[4] as int == index
          && d[5] == (if complete then 0 else subindex);
        var n := if d[2] % 2 == 1 then 4 - (d[2] / 4) % 4 else 4;
        && (!taken ==> u.ret == -13)
        && (taken && (d[2] / 2) % 2 == 1 && (|d| < n + 6 || n > maxsize) ==> u.ret == -12)
        && (taken && (d[2] / 2) % 2 == 1 && |d| >= n + 6 && n <= maxsize ==> u.ret == 0 && u.value == d[6..6 + n])
        && (taken && (d[2] / 2) % 2 == 0 && |d| < 10 ==> u.ret == -12)
  {
    hide UploadAnswer, Fetch;
    var a := UploadAnswer(link, s, index, subindex, complete);
    if a.ret == 0 {
      ServiceIs(a.data);
    }
  }
}
