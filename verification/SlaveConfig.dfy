/** Bringing a slave into its requested state (src/ec_slave.c:112-134, 278-402, 426-799): section 6.4.1 of
    ETG.1000.6 names the states. What the slave and the wire answer is an arbitrary script; a call that has used up
    the script is still waiting, so that every finite script describes a prefix of a run. */
module SlaveConfig {
  import opened Words
  import opened ErrorCodes

  const INIT: byte := 0x01
  const PREOP: byte := 0x02
  const BOOT: byte := 0x03
  const SAFEOP: byte := 0x04
  const OP: byte := 0x08

  const MAX_SYNC_DIFF_NS: nat := 100
  const SYNC_WAIT_COUNT: nat := 15000

  /** One exchange with the slave: the result of the datagram, the word that was read, and the clock afterwards. */
  datatype Reply = Reply(ret: int, value: u32, now: nat)

  /** What goes to the slave: a requested state, the question for an error code, an acknowledged error state, anything
      that configures it; and the states it reports. */
  datatype Event = Request(state: byte) | AskCode | Ack(state: byte) | Status(state: byte) | Setup

  datatype World = World(current: byte, requested: byte, alStatusCode: u16, now: nat, script: seq<Reply>,
                         trace: seq<Event>)

  /** The result of a call; None while it waits for the next reply. */
  datatype Out = Out(w: World, ret: Option<int>)

  /** The configuration as far as it decides which exchanges take place; `downloads` counts the SDO downloads of the PDO
      assignment and mapping. */
  datatype Config = Config(foe: bool, coe: bool, downloads: nat, configured: bool, dc: bool)

  predicate Worked(o: Out) {
    o.ret.Some? && o.ret.value >= 0
  }

  predicate AckError(state: byte) {
    (state / 0x10) % 2 == 1
  }

  /** ec_slave_state_change_timeout_ns */
  function Timeout(from: byte, to: byte): nat {
    if from == INIT && (to == PREOP || to == BOOT) then 3_000_000_000
    else if (from == PREOP && to == SAFEOP) || (from == SAFEOP && to == OP) then 10_000_000_000
    else if to == INIT || ((from == OP || from == SAFEOP) && to == PREOP) then 5_000_000_000
    else if from == OP && to == SAFEOP then 200_000_000
    else 10_000_000_000
  }

  // ----- the calls as functions -----

  /** ec_master_queue_ext_datagram: what is sent is sent before the reply arrives. */
  function Exchange(w: World, e: Event): Out {
    var sent := w.(trace := w.trace + [e]);
    if w.script == [] then Out(sent, None)
    else Out(sent.(now := w.script[0].now, script := w.script[1..]), Some(w.script[0].ret))
  }

  /** Reading the AL status; the state is noted if the datagram came back. */
  function ReadStatus(w: World): Out {
    if w.script == [] then Out(w, None)
    else
      var r := w.script[0];
      var read := w.(now := r.now, script := w.script[1..]);
      if r.ret < 0 then Out(read, Some(r.ret))
      else
        var state: byte := r.value % 0x100;
        Out(read.(current := state, trace := w.trace + [Status(state)]), Some(r.ret))
  }

  /** The loop of ec_slave_state_clear_ack_error. Note that it compares with the slave's requested state, not with
      `target`. */
  function AckPoll(w: World, target: byte, start: nat): Out
    decreases |w.script|
  {
    var o := ReadStatus(w);
    if !Worked(o) then o
    else if !AckError(o.w.current) then
      Out(o.w, Some(if o.w.current == o.w.requested then 0 else -EC_ERR_ALERR))
    else if Elapsed(o.w.now, start) > Timeout(o.w.current, target) then Out(o.w, Some(-EC_ERR_TIMEOUT))
    else AckPoll(o.w, target, start)
  }

  /** ec_slave_state_clear_ack_error */
  function ClearAckError(w: World, target: byte): Out {
    var code := Exchange(w, AskCode);
    if !Worked(code) then code
    else
      var known := code.w.(alStatusCode := w.script[0].value % 0x1_0000);
      var ack := Exchange(known, Ack(w.current));
      if !Worked(ack) then ack else AckPoll(ack.w, target, w.now)
  }

  /** The loop of ec_slave_state_change; `before` is the state reported before. */
  function Poll(w: World, target: byte, before: byte, start: nat): Out
    decreases |w.script|
  {
    var o := ReadStatus(w);
    if !Worked(o) then o
    else if o.w.current == target then Out(o.w, Some(0))
    else if o.w.current != before && o.w.current % 0x10 == before % 0x10 then ClearAckError(o.w, target)
    else if Elapsed(o.w.now, start) > Timeout(o.w.current, target) then Out(o.w, Some(-EC_ERR_TIMEOUT))
    else Poll(o.w, target, o.w.current, start)
  }

  /** ec_slave_state_change */
  function StateChange(w: World, target: byte): Out {
    var o := Exchange(w, Request(target));
    if !Worked(o) then o else Poll(o.w, target, w.current, w.now)
  }

  /** `n` exchanges that must all work. */
  function SetUp(w: World, n: nat): Out
    decreases n
  {
    if n == 0 then Out(w, Some(0))
    else
      var o := Exchange(w, Setup);
      if !Worked(o) then o else SetUp(o.w, n - 1)
  }

  /** Waiting for a small time difference, `tries` reads after the first at most. */
  function WaitForSync(w: World, tries: nat): Out
    decreases tries
  {
    var o := Exchange(w, Setup);
    if !Worked(o) then o
    else if w.script[0].value % 0x8000_0000 <= MAX_SYNC_DIFF_NS then Out(o.w, Some(0))
    else if tries == 0 then Out(o.w, Some(-EC_ERR_TIMEOUT))
    else WaitForSync(o.w, tries - 1)
  }

  function SetUpClocks(w: World): Out {
    var before := SetUp(w, 2);
    if !Worked(before) then before
    else
      var sync := WaitForSync(before.w, SYNC_WAIT_COUNT);
      if !Worked(sync) then sync else SetUp(sync.w, 2)
  }

  /** What is configured in PREOP. */
  function SetUpProcessData(w: World, c: Config): Out {
    var o := SetUp(w, c.downloads + if c.configured then 2 else 0);
    if !Worked(o) || !c.configured || !c.dc then o else SetUpClocks(o.w)
  }

  /** ec_slave_config */
  function Configure(w: World, c: Config): Out {
    var init := StateChange(w, INIT);
    if !Worked(init) then init else
    var cleared := SetUp(init.w, 3);
    if !Worked(cleared) then cleared else
    if cleared.w.current == cleared.w.requested then Out(cleared.w, Some(0))
    else if cleared.w.requested == BOOT then ConfigureBoot(cleared.w, c)
    else ConfigureUp(cleared.w, c)
  }

  function ConfigureBoot(w: World, c: Config): Out {
    if !c.foe then Out(w, Some(-EC_ERR_NOSUPP)) else
    var mailbox := SetUp(w, 1);
    if !Worked(mailbox) then mailbox else
    var boot := StateChange(mailbox.w, BOOT);
    if !Worked(boot) then boot else Out(boot.w, Some(0))
  }

  function ConfigureUp(w: World, c: Config): Out {
    var mailbox := SetUp(w, if c.coe then 1 else 0);
    if !Worked(mailbox) then mailbox else
    var preop := StateChange(mailbox.w, PREOP);
    if !Worked(preop) then preop else
    if preop.w.current == preop.w.requested then Out(preop.w, Some(0)) else ConfigureData(preop.w, c)
  }

  function ConfigureData(w: World, c: Config): Out {
    var data := SetUpProcessData(w, c);
    if !Worked(data) then data else
    var safeop := StateChange(data.w, SAFEOP);
    if !Worked(safeop) then safeop else
    if safeop.w.current == safeop.w.requested then Out(safeop.w, Some(0)) else
    var op := StateChange(safeop.w, OP);
    if !Worked(op) then op else Out(op.w, Some(0))
  }

  // ----- what an observer of the slave's side sees -----

  /** The states requested so far, how many configuration exchanges followed each request, the last state reported since
      the last request, whether every request but the first followed a report of the state requested before, and the
      states last asked for when errors were acknowledged. */
  datatype Seen = Seen(asked: seq<byte>, done: seq<nat>, reported: Option<byte>, orderly: bool, ackedAt: set<byte>)

  const NOTHING_ASKED: byte := 0

  function LastAsked(m: Seen): byte {
    if m.asked == [] then NOTHING_ASKED else m.asked[|m.asked| - 1]
  }

  function Watch(m: Seen, e: Event): Seen {
    match e
    case Request(s) =>
      Seen(m.asked + [s], m.done + [0], None, m.orderly &&
           (m.asked == [] || m.reported == Some(LastAsked(m))), m.ackedAt)
    case AskCode => m
    case Ack(_) => m.(ackedAt := m.ackedAt + {LastAsked(m)})
    case Status(s) => m.(reported := Some(s))
    case Setup => if m.done == [] then m else m.(done := m.done[|m.done| - 1 := m.done[|m.done| - 1] + 1])
  }

  /** `m'` differs from `m` only by between `lo` and `hi` configuration exchanges more. */
  predicate Later(m: Seen, m': Seen, lo: nat, hi: nat) {
    && |m'.done| == |m.done| > 0 && m'.(done := m.done) == m
    && var last := |m.done| - 1;
    m'.done[..last] == m.done[..last] && m.done[last] + lo <= m'.done[last] <= m.done[last] + hi
  }

  lemma LaterTrans(a: Seen, b: Seen, c: Seen, lo: nat, hi: nat, lo': nat, hi': nat)
    requires Later(a, b, lo, hi) && Later(b, c, lo', hi')
    ensures Later(a, c, lo + lo', hi + hi')
  {
  }

  function Watched(t: seq<Event>): Seen {
    if t == [] then Seen([], [], None, true, {}) else Watch(Watched(t[..|t| - 1]), t[|t| - 1])
  }

  /** Between requests only the reports and the acknowledgement can change. */
  predicate Quiet(w: World, o: Out) {
    var m, m' := Watched(w.trace), Watched(o.w.trace);
    && m'.asked == m.asked && m'.done == m.done && m'.orderly == m.orderly && o.w.requested == w.requested
  }

  lemma WatchedNext(t: seq<Event>, e: Event)
    ensures Watched(t + [e]) == Watch(Watched(t), e)
  {
    assert (t + [e])[..|t|] == t;
  }

  lemma ReadStatusSeen(w: World)
    ensures var o := ReadStatus(w);
      && Quiet(w, o) && Watched(o.w.trace).ackedAt == Watched(w.trace).ackedAt
      && (Worked(o) ==> Watched(o.w.trace).reported == Some(o.w.current) && |o.w.script| < |w.script|)
      && (o.ret.None? ==> w.script == [] && o.w == w)
  {
    hide Watched;
    if w.script != [] {
      WatchedNext(w.trace, Status(w.script[0].value % 0x100));
    }
  }

  lemma ExchangeSeen(w: World, e: Event)
    ensures var o := Exchange(w, e);
      && Watched(o.w.trace) == Watch(Watched(w.trace), e) && o.w.requested == w.requested && o.w.current == w.current
      && (e.AskCode? || e.Ack? ==> Quiet(w, o))
  {
    hide Watched;
    WatchedNext(w.trace, e);
  }

  lemma QuietQuiet(w: World, a: Out, b: Out)
    requires Quiet(w, a) && Quiet(a.w, b)
    ensures Quiet(w, b)
  {
  }

  lemma {:induction false} AckPollSeen(w: World, target: byte, start: nat)
    ensures var o := AckPoll(w, target, start);
      && Quiet(w, o) && Watched(o.w.trace).ackedAt == Watched(w.trace).ackedAt
      && (Worked(o) ==> Watched(o.w.trace).reported == Some(o.w.current) && o.w.current == w.requested)
    decreases |w.script|
  {
    hide Watched, Timeout;
    ReadStatusSeen(w);
    var o := ReadStatus(w);
    if Worked(o) && AckError(o.w.current) && Elapsed(o.w.now, start) <= Timeout(o.w.current, target) {
      AckPollSeen(o.w, target, start);
      QuietQuiet(w, o, AckPoll(o.w, target, start));
    }
  }

  lemma ClearAckErrorSeen(w: World, target: byte)
    ensures var o := ClearAckError(w, target);
      var m, m' := Watched(w.trace), Watched(o.w.trace);
      && Quiet(w, o)
      && (Worked(o) ==>
            m'.reported == Some(o.w.current) && o.w.current == w.requested && m'.ackedAt == m.ackedAt + {LastAsked(m)})
  {
    hide Watched, AckPoll;
    var code := Exchange(w, AskCode);
    ExchangeSeen(w, AskCode);
    if Worked(code) {
      var known := code.w.(alStatusCode := w.script[0].value % 0x1_0000);
      ExchangeSeen(known, Ack(w.current));
      var ack := Exchange(known, Ack(w.current));
      AckPollSeen(ack.w, target, w.now);
    }
  }

  /** A wait that ended well: in the target state without an acknowledgement, or in the slave's requested state with
      one. */
  predicate Arrived(m: Seen, m': Seen, current: byte, target: byte, requested: byte) {
    || (current == target && m'.ackedAt == m.ackedAt)
    || (current == requested && m'.ackedAt == m.ackedAt + {LastAsked(m)})
  }

  /** Waiting for a state ends well only in that state, or in the slave's requested state after an acknowledgement. */
  lemma {:induction false} PollSeen(w: World, target: byte, before: byte, start: nat)
    ensures var o := Poll(w, target, before, start);
      var m, m' := Watched(w.trace), Watched(o.w.trace);
      && Quiet(w, o)
      && (Worked(o) ==> m'.reported == Some(o.w.current) && Arrived(m, m', o.w.current, target, w.requested))
    decreases |w.script|
  {
    hide Watched, Timeout, ClearAckError;
    ReadStatusSeen(w);
    var o := ReadStatus(w);
    if Worked(o) && o.w.current != target {
      if o.w.current != before && o.w.current % 0x10 == before % 0x10 {
        ClearAckErrorSeen(o.w, target);
        QuietQuiet(w, o, ClearAckError(o.w, target));
      } else if Elapsed(o.w.now, start) <= Timeout(o.w.current, target) {
        PollSeen(o.w, target, o.w.current, start);
        QuietQuiet(w, o, Poll(o.w, target, o.w.current, start));
      }
    }
  }

  lemma StateChangeSeen(w: World, target: byte)
    ensures var o := StateChange(w, target);
      var m, m' := Watched(w.trace), Watched(o.w.trace);
      && m'.asked == m.asked + [target] && m'.done == m.done + [0] && o.w.requested == w.requested
      && m'.orderly == (m.orderly && (m.asked == [] || m.reported == Some(LastAsked(m))))
      && (Worked(o) ==>
            && m'.reported == Some(o.w.current)
            && ((o.w.current == target && m'.ackedAt == m.ackedAt)
                || (o.w.current == w.requested && m'.ackedAt == m.ackedAt + {target})))
  {
    hide Watched, Poll;
    ExchangeSeen(w, Request(target));
    var o := Exchange(w, Request(target));
    PollSeen(o.w, target, w.current, w.now);
  }

  /** Configuration exchanges request nothing and report nothing. */
  predicate Silent(w: World, o: Out) {
    var m, m' := Watched(w.trace), Watched(o.w.trace);
    m'.(done := m.done) == m && o.w.current == w.current && o.w.requested == w.requested
  }

  lemma OneSetUp(w: World)
    requires Watched(w.trace).done != []
    ensures var o := Exchange(w, Setup);
      Silent(w, o) && Later(Watched(w.trace), Watched(o.w.trace), 1, 1)
  {
    hide Watched;
    ExchangeSeen(w, Setup);
  }

  lemma {:induction false} SetUpSeen(w: World, n: nat)
    requires Watched(w.trace).done != []
    ensures Silent(w, SetUp(w, n))
    ensures Worked(SetUp(w, n)) ==> Later(Watched(w.trace), Watched(SetUp(w, n).w.trace), n, n)
    decreases n
  {
    hide Watched;
    if n > 0 {
      OneSetUp(w);
      SetUpSeen(Exchange(w, Setup).w, n - 1);
    }
  }

  lemma {:induction false} WaitForSyncSeen(w: World, tries: nat)
    requires Watched(w.trace).done != []
    ensures Silent(w, WaitForSync(w, tries))
    ensures Worked(WaitForSync(w, tries)) ==>
      Later(Watched(w.trace), Watched(WaitForSync(w, tries).w.trace), 1, tries + 1)
    decreases tries
  {
    hide Watched;
    OneSetUp(w);
    if tries > 0 {
      WaitForSyncSeen(Exchange(w, Setup).w, tries - 1);
    }
  }

  /** How many configuration exchanges belong to PREOP, at least and at most: only the wait for a small time difference
      may take more or less. */
  function LeastData(c: Config): nat {
    c.downloads + (if c.configured then 2 else 0) + if c.configured && c.dc then 5 else 0
  }

  function MostData(c: Config): nat {
    LeastData(c) + if c.configured && c.dc then SYNC_WAIT_COUNT else 0
  }

  lemma SetUpClocksSeen(w: World)
    requires Watched(w.trace).done != []
    ensures Silent(w, SetUpClocks(w))
    ensures Worked(SetUpClocks(w)) ==> Later(Watched(w.trace), Watched(SetUpClocks(w).w.trace), 5, 5 + SYNC_WAIT_COUNT)
  {
    hide Watched, SetUp, WaitForSync, Later;
    var before := SetUp(w, 2);
    SetUpSeen(w, 2);
    if Worked(before) {
      LaterKeeps(Watched(w.trace), Watched(before.w.trace), 2, 2);
      var sync := WaitForSync(before.w, SYNC_WAIT_COUNT);
      WaitForSyncSeen(before.w, SYNC_WAIT_COUNT);
      if Worked(sync) {
        LaterKeeps(Watched(before.w.trace), Watched(sync.w.trace), 1, SYNC_WAIT_COUNT + 1);
        var after := SetUp(sync.w, 2);
        SetUpSeen(sync.w, 2);
        LaterTrans(Watched(w.trace), Watched(before.w.trace), Watched(sync.w.trace), 2, 2, 1, SYNC_WAIT_COUNT + 1);
        if Worked(after) {
          LaterTrans(Watched(w.trace), Watched(sync.w.trace), Watched(after.w.trace), 3, SYNC_WAIT_COUNT + 3, 2, 2);
        }
      }
    }
  }

  lemma LaterKeeps(m: Seen, m': Seen, lo: nat, hi: nat)
    requires Later(m, m', lo, hi)
    ensures m'.done != [] && m'.(done := m.done) == m
  {
  }

  lemma SetUpProcessDataSeen(w: World, c: Config)
    requires Watched(w.trace).done != []
    ensures Silent(w, SetUpProcessData(w, c))
    ensures Worked(SetUpProcessData(w, c)) ==>
      Later(Watched(w.trace), Watched(SetUpProcessData(w, c).w.trace), LeastData(c), MostData(c))
  {
    hide Watched, SetUp, SetUpClocks, Later;
    var n := c.downloads + if c.configured then 2 else 0;
    SetUpSeen(w, n);
    var o := SetUp(w, n);
    if Worked(o) && c.configured && c.dc {
      LaterKeeps(Watched(w.trace), Watched(o.w.trace), n, n);
      SetUpClocksSeen(o.w);
      var r := SetUpClocks(o.w);
      if Worked(r) {
        LaterTrans(Watched(w.trace), Watched(o.w.trace), Watched(r.w.trace), n, n, 5, 5 + SYNC_WAIT_COUNT);
      }
    }
  }

  // ----- the main results -----

  function Path(requested: byte): seq<byte> {
    if requested == BOOT then [INIT, BOOT] else [INIT, PREOP, SAFEOP, OP]
  }

  predicate ValidTarget(s: byte) {
    s == INIT || s == PREOP || s == BOOT || s == SAFEOP || s == OP
  }

  /** The path up to the requested state. */
  function PathTo(requested: byte): seq<byte> {
    if requested == INIT then [INIT]
    else if requested == PREOP then [INIT, PREOP]
    else if requested == SAFEOP then [INIT, PREOP, SAFEOP]
    else Path(requested)
  }

  /** How many configuration exchanges follow each request on the way to the requested state. */
  function Exchanges(c: Config, requested: byte, data: nat): seq<nat> {
    var mailbox := if c.coe then 1 else 0;
    if requested == INIT then [3]
    else if requested == BOOT then [4, 0]
    else if requested == PREOP then [3 + mailbox, 0]
    else if requested == SAFEOP then [3 + mailbox, data, 0]
    else [3 + mailbox, data, 0, 0]
  }

  predicate Between(done: seq<nat>, lo: seq<nat>, hi: seq<nat>) {
    |done| == |lo| == |hi| && forall i :: 0 <= i < |done| ==> lo[i] <= done[i] <= hi[i]
  }

  /** The whole path, with everything that is to be configured on it. */
  predicate Complete(m: Seen, c: Config, requested: byte) {
    && m.asked == PathTo(requested)
    && Between(m.done, Exchanges(c, requested, LeastData(c)), Exchanges(c, requested, MostData(c)))
  }

  /** An error was acknowledged while another state than the slave's requested one was asked for. */
  predicate Strays(m: Seen, requested: byte) {
    exists s :: s in m.ackedAt && s != requested
  }

  /** The `i`-th event acknowledges an error while state `s` is the last one asked for. */
  predicate AcksAt(t: seq<Event>, i: nat, s: byte) {
    i < |t| && t[i].Ack? && LastAsked(Watched(t[..i])) == s
  }

  /** Read off the events themselves. */
  lemma {:induction false} StraysAre(t: seq<Event>, requested: byte)
    ensures Strays(Watched(t), requested) <==> exists i: nat, s: byte :: AcksAt(t, i, s) && s != requested
    decreases |t|
  {
    hide Watch, LastAsked;
    if t == [] {
      assert Watched(t).ackedAt == {};
    } else {
      var last := |t| - 1;
      var d := t[..last];
      StraysAre(d, requested);
      forall i: nat, s: byte ensures i < last ==> (AcksAt(d, i, s) <==> AcksAt(t, i, s)) {
        if i < last {
          assert d[..i] == t[..i];
        }
      }
      LastAck(t);
      assert t[last].Ack? ==> AcksAt(t, last, LastAsked(Watched(d)));
    }
  }

  lemma LastAck(t: seq<Event>)
    requires t != []
    ensures var m := Watched(t[..|t| - 1]);
      Watched(t).ackedAt == m.ackedAt + if t[|t| - 1].Ack? then {LastAsked(m)} else {}
  {
  }

  /** What holds after a call, whatever its result, and what success means. */
  predicate Outcome(o: Out, c: Config, requested: byte) {
    var m := Watched(o.w.trace);
    && m.orderly && m.asked <= Path(requested)
    && (o.ret == Some(0) ==> o.w.current == requested || (!ValidTarget(requested) && o.w.current == OP))
    && (o.ret == Some(0) && ValidTarget(requested) ==>
        if Strays(m, requested) then m.asked < PathTo(requested) else Complete(m, c, requested))
  }

  lemma ConfigureBootSafe(w: World, c: Config)
    requires w.requested == BOOT && w.current == INIT
    requires Watched(w.trace) == Seen([INIT], [3], Some(INIT), true, {})
    ensures Outcome(ConfigureBoot(w, c), c, BOOT)
  {
    hide Watched, SetUp, StateChange, LeastData, MostData;
    SetUpSeen(w, 1);
    StateChangeSeen(SetUp(w, 1).w, BOOT);
  }

  lemma ConfigureUpSafe(w: World, c: Config)
    requires w.requested != BOOT && w.requested != INIT && w.current == INIT
    requires Watched(w.trace) == Seen([INIT], [3], Some(INIT), true, {})
    ensures Outcome(ConfigureUp(w, c), c, w.requested)
  {
    hide Watched, SetUp, StateChange, ConfigureData, LeastData, MostData;
    var mailbox := SetUp(w, if c.coe then 1 else 0);
    SetUpSeen(w, if c.coe then 1 else 0);
    var preop := StateChange(mailbox.w, PREOP);
    StateChangeSeen(mailbox.w, PREOP);
    if Worked(mailbox) && Worked(preop) && preop.w.current != preop.w.requested {
      ConfigureDataSafe(preop.w, c);
    }
  }

  lemma ConfigureDataSafe(w: World, c: Config)
    requires w.requested != BOOT && w.requested != INIT && w.requested != PREOP && w.current == PREOP
    requires Watched(w.trace) == Seen([INIT, PREOP], [if c.coe then 4 else 3, 0], Some(PREOP), true, {})
    ensures Outcome(ConfigureData(w, c), c, w.requested)
  {
    hide Watched, SetUp, StateChange, SetUpProcessData, LeastData, MostData;
    var data := SetUpProcessData(w, c);
    SetUpProcessDataSeen(w, c);
    var safeop := StateChange(data.w, SAFEOP);
    StateChangeSeen(data.w, SAFEOP);
    StateChangeSeen(safeop.w, OP);
  }

  lemma ConfigureOutcome(w: World, c: Config)
    requires w.trace == []
    ensures Outcome(Configure(w, c), c, w.requested)
  {
    hide SetUp, StateChange, ConfigureBoot, ConfigureUp, LeastData, MostData;
    var init := StateChange(w, INIT);
    StateChangeSeen(w, INIT);
    if Worked(init) {
      SetUpSeen(init.w, 3);
      var cleared := SetUp(init.w, 3);
      if Worked(cleared) && cleared.w.current != w.requested {
        if w.requested == BOOT {
          ConfigureBootSafe(cleared.w, c);
        } else {
          ConfigureUpSafe(cleared.w, c);
        }
      }
    }
  }

  /** Whatever the slave answers: the requested states are a prefix of the path; every state is requested only after the
      slave has reported the one before; and success means that a valid requested state is reached. */
  lemma ConfigureSafe(w: World, c: Config)
    requires w.trace == []
    ensures var o := Configure(w, c);
      var m := Watched(o.w.trace);
      && m.orderly && m.asked <= Path(w.requested)
      && (o.ret == Some(0) ==> o.w.current == w.requested || (!ValidTarget(w.requested) && o.w.current == OP))
  {
    hide Watched, Configure, Complete;
    ConfigureOutcome(w, c);
  }

  /** A successful call has taken the whole path to a valid requested state, and has configured everything that belongs
      to each state on it, exactly if no error was acknowledged while another state was asked for. */
  lemma WholePathIff(w: World, c: Config)
    requires w.trace == [] && ValidTarget(w.requested)
    ensures var o := Configure(w, c);
      var m := Watched(o.w.trace);
      o.ret == Some(0) ==>
        && (m.asked == PathTo(w.requested) <==> !Strays(m, w.requested))
        && (Complete(m, c, w.requested) <==> !Strays(m, w.requested))
  {
    hide Watched, Configure, Exchanges, Between;
    ConfigureOutcome(w, c);
  }

  const GOOD: Reply := Reply(0, 0, 0)
  const IN_OP: Reply := Reply(0, OP, 0)
  const OP_REFUSES: Reply := Reply(0, OP + 0x10, 0)

  lemma AcknowledgedInit()
    ensures StateChange(World(OP, OP, 0, 0, [GOOD, OP_REFUSES, GOOD, GOOD, IN_OP, GOOD, GOOD, GOOD], []), INIT)
         == Out(World(OP, OP, 0, 0, [GOOD, GOOD, GOOD],
                      [Request(INIT), Status(OP + 0x10), AskCode, Ack(OP + 0x10), Status(OP)]), Some(0))
  {
    hide Timeout, Poll, AckPoll;
    var w := World(OP, OP, 0, 0, [GOOD, OP_REFUSES, GOOD, GOOD, IN_OP, GOOD, GOOD, GOOD], []);
    var asked := World(OP, OP, 0, 0, [OP_REFUSES, GOOD, GOOD, IN_OP, GOOD, GOOD, GOOD], [Request(INIT)]);
    assert Exchange(w, Request(INIT)) == Out(asked, Some(0));
    var read := World(OP + 0x10, OP, 0, 0, [GOOD, GOOD, IN_OP, GOOD, GOOD, GOOD], [Request(INIT), Status(OP + 0x10)]);
    assert ReadStatus(asked) == Out(read, Some(0));
    var code := World(OP + 0x10, OP, 0, 0, [GOOD, IN_OP, GOOD, GOOD, GOOD],
                      [Request(INIT), Status(OP + 0x10), AskCode]);
    assert Exchange(read, AskCode) == Out(code, Some(0));
    var sent := [Request(INIT), Status(OP + 0x10), AskCode, Ack(OP + 0x10)];
    var ack := World(OP + 0x10, OP, 0, 0, [IN_OP, GOOD, GOOD, GOOD], sent);
    assert Exchange(code, Ack(OP + 0x10)) == Out(ack, Some(0));
    var again := World(OP, OP, 0, 0, [GOOD, GOOD, GOOD], sent + [Status(OP)]);
    assert ReadStatus(ack) == Out(again, Some(0));
    AckPollStep(ack, INIT, 0);
    PollStep(asked, INIT, OP, 0);
  }

  lemma SetUpThree(w: World)
    requires w.script == [GOOD, GOOD, GOOD]
    ensures SetUp(w, 3) == Out(w.(now := 0, script := [], trace := w.trace + [Setup, Setup, Setup]), Some(0))
  {
    hide SetUp;
    var one := Exchange(w, Setup).w;
    assert one.script == [GOOD, GOOD];
    var two := Exchange(one, Setup).w;
    assert two.script == [GOOD];
    var three := Exchange(two, Setup).w;
    assert three.trace == w.trace + [Setup, Setup, Setup];
    SetUpStep(three, 0);
    SetUpStep(two, 1);
    SetUpStep(one, 2);
    SetUpStep(w, 3);
  }

  /** An acknowledged error can end a configuration early: a slave in OP refuses to go to INIT, and with the error
      acknowledged it is still in OP. As OP is the state it is to have, the call succeeds although no state but INIT has
      been requested, and after the process data set-up was cleared. */
  lemma AcknowledgedShortcut(c: Config)
    ensures var o := Configure(World(OP, OP, 0, 0, [GOOD, OP_REFUSES, GOOD, GOOD, IN_OP, GOOD, GOOD, GOOD], []), c);
      && o.ret == Some(0) && o.w.current == OP
      && o.w.trace == [Request(INIT), Status(OP + 0x10), AskCode, Ack(OP + 0x10), Status(OP), Setup, Setup, Setup]
  {
    hide SetUp, StateChange, ConfigureBoot, ConfigureUp;
    AcknowledgedInit();
    var t := [Request(INIT), Status(OP + 0x10), AskCode, Ack(OP + 0x10), Status(OP)];
    SetUpThree(World(OP, OP, 0, 0, [GOOD, GOOD, GOOD], t));
  }

  /** Every exchange worked. */
  predicate AllWork(script: seq<Reply>) {
    forall i :: 0 <= i < |script| ==> script[i].ret >= 0
  }

  /** With a wire that works, waiting is given up exactly when the limit for the reported state has passed. */
  lemma {:induction false} AckPollLimit(w: World, target: byte, start: nat)
    requires AllWork(w.script)
    ensures var o := AckPoll(w, target, start);
      && (o.ret == Some(-EC_ERR_TIMEOUT) ==> Elapsed(o.w.now, start) > Timeout(o.w.current, target))
      && (o.ret == None && w.script != [] ==> Elapsed(o.w.now, start) <= Timeout(o.w.current, target))
    decreases |w.script|
  {
    hide Timeout;
    var o := ReadStatus(w);
    if Worked(o) && AckError(o.w.current) && Elapsed(o.w.now, start) <= Timeout(o.w.current, target) {
      AckPollLimit(o.w, target, start);
    }
  }

  lemma {:induction false} AckPollTrace(w: World, target: byte, start: nat)
    ensures w.trace <= AckPoll(w, target, start).w.trace
    decreases |w.script|
  {
    var o := ReadStatus(w);
    if Worked(o) && AckError(o.w.current) && Elapsed(o.w.now, start) <= Timeout(o.w.current, target) {
      AckPollTrace(o.w, target, start);
    }
  }

  lemma ClearAckErrorTrace(w: World, target: byte)
    ensures w.trace + [AskCode] <= ClearAckError(w, target).w.trace
  {
    hide AckPoll;
    var code := Exchange(w, AskCode);
    if Worked(code) {
      var known := code.w.(alStatusCode := w.script[0].value % 0x1_0000);
      AckPollTrace(Exchange(known, Ack(w.current)).w, target, w.now);
    }
  }

  lemma {:induction false} PollLimit(w: World, target: byte, before: byte, start: nat)
    requires AllWork(w.script)
    ensures var o := Poll(w, target, before, start);
      && w.trace <= o.w.trace
      && (AskCode !in o.w.trace[|w.trace|..] && o.ret == Some(-EC_ERR_TIMEOUT) ==>
          Elapsed(o.w.now, start) > Timeout(o.w.current, target))
      && (AskCode !in o.w.trace[|w.trace|..] && o.ret == None && w.script != [] ==>
          Elapsed(o.w.now, start) <= Timeout(o.w.current, target))
    decreases |w.script|
  {
    hide Timeout, ClearAckError;
    var o := ReadStatus(w);
    if Worked(o) && o.w.current != target {
      if o.w.current != before && o.w.current % 0x10 == before % 0x10 {
        ClearAckErrorTrace(o.w, target);
        var t := ClearAckError(o.w, target).w.trace;
        assert t[|o.w.trace|] == AskCode && t[|w.trace|..][1] == AskCode;
      } else if Elapsed(o.w.now, start) <= Timeout(o.w.current, target) {
        PollLimit(o.w, target, o.w.current, start);
        var p := Poll(o.w, target, o.w.current, start);
        assert AskCode in p.w.trace[|o.w.trace|..] ==> AskCode in p.w.trace[|w.trace|..] by {
          assert p.w.trace[|w.trace|..][1..] == p.w.trace[|o.w.trace|..];
        }
      }
    }
  }

  // ----- one step of each loop -----

  lemma AckPollStep(w: World, target: byte, start: nat)
    ensures var o := ReadStatus(w);
      AckPoll(w, target, start) ==
      if !Worked(o) then o
      else if !AckError(o.w.current) then Out(o.w, Some(if o.w.current == o.w.requested then 0 else -EC_ERR_ALERR))
      else if Elapsed(o.w.now, start) > Timeout(o.w.current, target) then Out(o.w, Some(-EC_ERR_TIMEOUT))
      else AckPoll(o.w, target, start)
  {
    hide Timeout;
  }

  lemma PollStep(w: World, target: byte, before: byte, start: nat)
    ensures var o := ReadStatus(w);
      Poll(w, target, before, start) ==
      if !Worked(o) then o
      else if o.w.current == target then Out(o.w, Some(0))
      else if o.w.current != before && o.w.current % 0x10 == before % 0x10 then ClearAckError(o.w, target)
      else if Elapsed(o.w.now, start) > Timeout(o.w.current, target) then Out(o.w, Some(-EC_ERR_TIMEOUT))
      else Poll(o.w, target, o.w.current, start)
  {
    hide Timeout, ClearAckError;
  }

  lemma SetUpStep(w: World, n: nat)
    ensures SetUp(w, 0) == Out(w, Some(0))
    ensures var o := Exchange(w, Setup);
      n > 0 ==> SetUp(w, n) == if !Worked(o) then o else SetUp(o.w, n - 1)
  {
  }

  lemma WaitStep(w: World, tries: nat)
    ensures var o := Exchange(w, Setup);
      WaitForSync(w, tries) ==
      if !Worked(o) then o
      else if w.script[0].value % 0x8000_0000 <= MAX_SYNC_DIFF_NS then Out(o.w, Some(0))
      else if tries == 0 then Out(o.w, Some(-EC_ERR_TIMEOUT))
      else WaitForSync(o.w, tries - 1)
  {
  }
}
