/** The mailbox protocol under CoE (src/ec_mailbox.c): the frame that ec_mailbox_fill_send builds in the
    datagram's buffer, and what ec_mailbox_receive makes of the slave's mailbox. */
module Mailbox {
  import opened Words
  import opened ErrorCodes
  import opened ByteBuffers

  const MBOX_HEADER_SIZE: nat := 6
  const TYPE_COE: byte := 0x03

  datatype Mail = Mail(station: u16, dtype: byte, data: seq<byte>)

  function Head(station: u16, dtype: byte, size: u16): (h: seq<byte>)
    ensures |h| == MBOX_HEADER_SIZE
  {
    Le16(size) + Le16(station) + [0, dtype]
  }

  function Frame(m: Mail): seq<byte>
    requires |m.data| < 0x1_0000
  {
    Head(m.station, m.dtype, |m.data|) + m.data
  }

  /** What a reader of a mailbox with the contents `b` takes out of it: as many bytes as the length word says. */
  function ReadMail(b: seq<byte>): Mail
    requires MBOX_HEADER_SIZE <= |b| && MBOX_HEADER_SIZE + ReadU16(b, 0) <= |b|
  {
    Mail(ReadU16(b, 2), b[5], b[MBOX_HEADER_SIZE..MBOX_HEADER_SIZE + ReadU16(b, 0)])
  }

  /** Reading a mailbox inverts filling it, whatever the rest of the mailbox contains. */
  lemma MailArrives(b: seq<byte>, m: Mail)
    requires |m.data| < 0x1_0000 && Holds(b, 0, Frame(m))
    ensures MBOX_HEADER_SIZE <= |b| && MBOX_HEADER_SIZE + ReadU16(b, 0) <= |b| && ReadMail(b) == m
  {
    var size, station := Le16(|m.data|), Le16(m.station);
    HoldsParts(b, 0, Head(m.station, m.dtype, |m.data|), m.data);
    HoldsParts(b, 0, size + station, [0, m.dtype]);
    HoldsParts(b, 0, size, station);
    HoldsTwo(b, 4, 0, m.dtype);
    HoldsLe16(b, 0, |m.data|);
    HoldsLe16(b, 2, m.station);
  }

  /** ec_mailbox_fill_send; its two assertions are the preconditions. */
  method FillSend(data: array<byte>, rx: nat, station: u16, dtype: byte, size: u16)
    requires rx <= data.Length && MBOX_HEADER_SIZE + size <= rx
    modifies data
    ensures Holds(data[..], 0, Head(station, dtype, size))
  {
    WriteBytes(data, 0, Le16(size));
    WrittenHolds(old(data[..]), 0, Le16(size));
    WrittenBehind(data[..], Le16(size), Le16(station));
    WriteBytes(data, 2, Le16(station));
    WrittenBehind(data[..], Le16(size) + Le16(station), [0, dtype]);
    WriteBytes(data, 4, [0, dtype]);
  }

  /** The outcome of sending a mail and fetching the answer: an error code of the datagram layer or of the
      polling for an answer, or the contents of the slave's mailbox. */
  datatype Raw = Failed(code: int) | Box(contents: seq<byte>)

  /** Answers on which this model says something: a length word within the mailbox (the assertion of
      ec_mailbox_receive); and for uploads, no first chunk larger than the announced size, and no
      empty segment that announces more segments, which would keep ec_coe_upload busy for ever. */
  predicate Regular(r: Raw) {
    match r
    case Failed(code) => code < 0
    case Box(b) =>
      && MBOX_HEADER_SIZE <= |b| && MBOX_HEADER_SIZE + ReadU16(b, 0) <= |b|
      && var d := ReadMail(b).data;
      |d| >= 10 ==> !StallingSegment(d) && !TooMuchAtOnce(d)
  }

  predicate StallingSegment(d: seq<byte>)
    requires |d| >= 10
  {
    |d| == 10 && d[2] / 0x20 == 0 && (d[2] / 2) % 8 == 7 && d[2] % 2 == 0
  }

  predicate TooMuchAtOnce(d: seq<byte>)
    requires |d| >= 10
  {
    d[2] / 0x20 == 2 && (d[2] / 2) % 2 == 0 && ReadU32(d, 6) < |d| - 10
  }

  type Reply = r: Raw | Regular(r) witness Failed(-1)

  /** ec_mailbox_receive and the tests on the mail type, on the least size and on an abort that follow it
      in every CoE service. */
  datatype Heard = Heard(ret: int, data: seq<byte>)

  function Accept(r: Reply, least: nat): (h: Heard)
    requires least >= 6
    ensures h.ret <= 0 && (h.ret == 0 ==> |h.data| >= least)
    ensures h.ret == 0 && |h.data| >= 10 ==> !StallingSegment(h.data) && !TooMuchAtOnce(h.data)
  {
    match r
    case Failed(code) => Heard(code, [])
    case Box(b) =>
      var m := ReadMail(b);
      if m.dtype % 0x10 == 0 then Heard(-EC_ERR_MBOX, [])
      else if m.dtype % 0x10 != TYPE_COE then Heard(-EC_ERR_COE_TYPE, [])
      else if |m.data| < least then Heard(-EC_ERR_COE_SIZE, [])
      else if ReadU16(m.data, 0) / 0x1000 == 2 && m.data[2] / 0x20 == 4 then Heard(-EC_ERR_COE_ABORT, [])
      else Heard(0, m.data)
  }
}
