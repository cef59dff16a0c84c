/** A slave that does what it is asked for is brought into its requested state (src/ec_slave.c:112-134, 349-402,
    426-799): what the calls promise if the wire works and every requested state is reported in time. */
module SlaveFollows {
  import opened Words
  import opened ErrorCodes
  import opened SlaveConfig

  /** What the slave still has to say, the state last reported, and the clock. */
  datatype Line = Line(script: seq<Reply>, current: byte, now: nat)

  function LineOf(w: World): Line {
    Line(w.script, w.current, w.now)
  }

  /** The next `n` exchanges work. */
  ghost predicate Works(l: Line, n: nat) {
    n <= |l.script| && forall i :: 0 <= i < n ==> l.script[i].ret >= 0
  }

  function Passed(l: Line, n: nat): Line {
    if n == 0 || n > |l.script| then l else Line(l.script[n..], l.current, l.script[n - 1].now)
  }

  /** The request works, as do the status reads behind it. The first `n` of these report other states without an error
      before the limit has passed, and the next one reports `target`. */
  ghost predicate Brings(l: Line, target: byte, n: nat) {
    && Works(l, n + 2) && l.script[n + 1].value % 0x100 == target
    && (n > 0 ==> l.current < 0x10)
    && forall i :: 1 <= i <= n ==> StillAway(l.script[i], target, l.now)
  }

  predicate StillAway(r: Reply, target: byte, start: nat) {
    var s := r.value % 0x100;
    s < 0x10 && s != target && Elapsed(r.now, start) <= Timeout(s, target)
  }

  function Brought(l: Line, target: byte, n: nat): Line {
    if n + 2 > |l.script| then l else Line(l.script[n + 2..], target, l.script[n + 1].now)
  }

  /** At most 15000 reads of a time difference of more than 100 ns, then one of at most 100. */
  ghost predicate InStep(l: Line, n: nat) {
    && n <= 15000 && Works(l, n + 1)
    && (forall i :: 0 <= i < n ==> l.script[i].value % 0x8000_0000 > 100)
    && l.script[n].value % 0x8000_0000 <= 100
  }

  /** How long the slave takes for each state, and to get into step. */
  datatype Pace = Pace(init: nat, first: nat, safeop: nat, op: nat, sync: nat)

  /** The slave follows on the way to `requested`. */
  ghost predicate Follows(l: Line, requested: byte, c: Config, p: Pace) {
    var ready := Passed(Brought(l, INIT, p.init), 3);
    && Brings(l, INIT, p.init) && Works(Brought(l, INIT, p.init), 3)
    && (requested == BOOT ==> c.foe && Works(ready, 1) && Brings(Passed(ready, 1), BOOT, p.first))
    && (requested == PREOP || requested == SAFEOP || requested == OP ==> FollowsUp(ready, requested, c, p))
  }

  ghost predicate FollowsUp(l: Line, requested: byte, c: Config, p: Pace) {
    var mailbox := if c.coe then 1 else 0;
    var preop := Brought(Passed(l, mailbox), PREOP, p.first);
    && Works(l, mailbox) && Brings(Passed(l, mailbox), PREOP, p.first)
    && (requested == SAFEOP || requested == OP ==> FollowsData(preop, requested, c, p))
  }

  ghost predicate FollowsData(l: Line, requested: byte, c: Config, p: Pace) {
    var safeop := Brought(WithData(l, c, p), SAFEOP, p.safeop);
    && TakesData(l, c, p) && Brings(WithData(l, c, p), SAFEOP, p.safeop)
    && (requested == OP ==> Brings(safeop, OP, p.op))
  }

  /** The slave takes what is configured in PREOP. */
  ghost predicate TakesData(l: Line, c: Config, p: Pace) {
    var n := c.downloads + if c.configured then 2 else 0;
    && Works(l, n)
    && (c.configured && c.dc ==>
        && Works(Passed(l, n), 2) && InStep(Passed(Passed(l, n), 2), p.sync)
        && Works(Passed(Passed(Passed(l, n), 2), p.sync + 1), 2))
  }

  function WithData(l: Line, c: Config, p: Pace): Line {
    var data := Passed(l, c.downloads + if c.configured then 2 else 0);
    if c.configured && c.dc then Passed(Passed(Passed(data, 2), p.sync + 1), 2) else data
  }

  // ----- the calls -----

  /** The call has ended well and nothing was acknowledged. */
  ghost predicate Well(w: World, o: Out, l: Line) {
    && o.ret == Some(0) && LineOf(o.w) == l && o.w.requested == w.requested
    && Watched(o.w.trace).ackedAt == Watched(w.trace).ackedAt
  }

  lemma {:induction false} SetUpWell(w: World, n: nat)
    requires Works(LineOf(w), n)
    ensures Well(w, SetUp(w, n), Passed(LineOf(w), n))
    decreases n
  {
    hide Watched;
    if n == 0 {
    } else {
      var o := Exchange(w, Setup);
      ExchangeSeen(w, Setup);
      SetUpWell(o.w, n - 1);
      assert forall i :: 1 <= i < |w.script| ==> w.script[1..][i - 1] == w.script[i];
      assert w.script[1..][n - 1..] == w.script[n..];
    }
  }

  lemma {:induction false} WaitWell(w: World, tries: nat, n: nat)
    requires n <= tries && InStep(LineOf(w), n)
    ensures Well(w, WaitForSync(w, tries), Passed(LineOf(w), n + 1))
    decreases n
  {
    hide Watched;
    var o := Exchange(w, Setup);
    ExchangeSeen(w, Setup);
    if n == 0 {
    } else {
      assert forall i :: 1 <= i < |w.script| ==> w.script[1..][i - 1] == w.script[i];
      assert InStep(LineOf(o.w), n - 1);
      WaitWell(o.w, tries - 1, n - 1);
      assert w.script[1..][n..] == w.script[n + 1..];
    }
  }

  lemma {:induction false} PollWell(w: World, target: byte, before: byte, start: nat, n: nat)
    requires Works(LineOf(w), n + 1) && w.script[n].value % 0x100 == target && (n > 0 ==> before < 0x10)
    requires forall i :: 0 <= i < n ==> StillAway(w.script[i], target, start)
    ensures Well(w, Poll(w, target, before, start), Line(w.script[n + 1..], target, w.script[n].now))
    decreases n
  {
    hide Watched, Timeout, Elapsed, Poll, StillAway;
    var o := ReadStatus(w);
    ReadStatusSeen(w);
    PollStep(w, target, before, start);
    if n == 0 {
    } else {
      assert forall i :: 0 <= i < |w.script| - 1 ==> w.script[1..][i] == w.script[i + 1];
      forall i | 0 <= i < n - 1 ensures StillAway(o.w.script[i], target, start) {
        assert StillAway(w.script[i + 1], target, start);
      }
      AwayIs(w.script[0], target, start, before);
      PollWell(o.w, target, o.w.current, start, n - 1);
      assert w.script[1..][n..] == w.script[n + 1..];
    }
  }

  /** A state without an error behind another one does not look like a refusal. */
  lemma AwayIs(r: Reply, target: byte, start: nat, before: byte)
    requires StillAway(r, target, start) && before < 0x10
    ensures var s := r.value % 0x100;
      && s < 0x10 && s != target && Elapsed(r.now, start) <= Timeout(s, target)
      && (s == before || s % 0x10 != before % 0x10)
  {
    hide Timeout, Elapsed;
  }

  lemma ChangeWell(w: World, target: byte, n: nat)
    requires Brings(LineOf(w), target, n)
    ensures Well(w, StateChange(w, target), Brought(LineOf(w), target, n))
  {
    hide Watched, Poll, StillAway;
    var o := Exchange(w, Request(target));
    ExchangeSeen(w, Request(target));
    assert forall i :: 1 <= i < |w.script| ==> w.script[1..][i - 1] == w.script[i];
    forall i | 0 <= i < n ensures StillAway(o.w.script[i], target, w.now) {
      assert StillAway(w.script[i + 1], target, w.now);
    }
    PollWell(o.w, target, w.current, w.now, n);
    assert w.script[1..][n + 1..] == w.script[n + 2..];
  }

  lemma InStepSoon(l: Line, n: nat)
    requires InStep(l, n)
    ensures n <= SYNC_WAIT_COUNT
  {
  }

  lemma DataWell(w: World, c: Config, p: Pace)
    requires TakesData(LineOf(w), c, p)
    ensures Well(w, SetUpProcessData(w, c), WithData(LineOf(w), c, p))
  {
    hide Watched, Works, InStep, Passed, SetUp, WaitForSync;
    var n := c.downloads + if c.configured then 2 else 0;
    SetUpWell(w, n);
    var o := SetUp(w, n);
    if c.configured && c.dc {
      SetUpWell(o.w, 2);
      var before := SetUp(o.w, 2);
      InStepSoon(LineOf(before.w), p.sync);
      WaitWell(before.w, SYNC_WAIT_COUNT, p.sync);
      SetUpWell(WaitForSync(before.w, SYNC_WAIT_COUNT).w, 2);
    }
  }

  lemma ConfigureDataWell(w: World, c: Config, p: Pace)
    requires FollowsData(LineOf(w), w.requested, c, p) && (w.requested == SAFEOP || w.requested == OP)
    ensures var o := ConfigureData(w, c);
      && o.ret == Some(0) && o.w.current == w.requested && Watched(o.w.trace).ackedAt == Watched(w.trace).ackedAt
  {
    hide Watched, Brings, Brought, TakesData, WithData, SetUpProcessData, StateChange;
    DataWell(w, c, p);
    var data := SetUpProcessData(w, c);
    ChangeWell(data.w, SAFEOP, p.safeop);
    BroughtIs(LineOf(data.w), SAFEOP, p.safeop);
    if w.requested == OP {
      var safeop := StateChange(data.w, SAFEOP);
      ChangeWell(safeop.w, OP, p.op);
      BroughtIs(LineOf(safeop.w), OP, p.op);
    }
  }

  lemma BroughtIs(l: Line, target: byte, n: nat)
    requires Brings(l, target, n)
    ensures Brought(l, target, n).current == target
  {
  }

  lemma PassedIs(l: Line, n: nat)
    ensures Passed(l, n).current == l.current
  {
  }

  lemma ConfigureUpWell(w: World, c: Config, p: Pace)
    requires FollowsUp(LineOf(w), w.requested, c, p) &&
      (w.requested == PREOP || w.requested == SAFEOP || w.requested == OP)
    ensures var o := ConfigureUp(w, c);
      && o.ret == Some(0) && o.w.current == w.requested && Watched(o.w.trace).ackedAt == Watched(w.trace).ackedAt
  {
    hide Watched, Brings, Brought, Passed, Works, SetUp, StateChange, FollowsData, ConfigureData;
    SetUpWell(w, if c.coe then 1 else 0);
    var mailbox := SetUp(w, if c.coe then 1 else 0);
    ChangeWell(mailbox.w, PREOP, p.first);
    BroughtIs(LineOf(mailbox.w), PREOP, p.first);
    if w.requested != PREOP {
      ConfigureDataWell(StateChange(mailbox.w, PREOP).w, c, p);
    }
  }

  lemma ConfigureBootWell(w: World, c: Config, p: Pace)
    requires c.foe && Works(LineOf(w), 1) && Brings(Passed(LineOf(w), 1), BOOT, p.first)
    ensures var o := ConfigureBoot(w, c);
      && o.ret == Some(0) && o.w.current == BOOT && Watched(o.w.trace).ackedAt == Watched(w.trace).ackedAt
  {
    hide Watched, Brings, Brought, Passed, Works, SetUp, StateChange;
    SetUpWell(w, 1);
    ChangeWell(SetUp(w, 1).w, BOOT, p.first);
    BroughtIs(LineOf(SetUp(w, 1).w), BOOT, p.first);
  }

  lemma ConfigureWell(w: World, c: Config, p: Pace)
    requires ValidTarget(w.requested) && Follows(LineOf(w), w.requested, c, p)
    ensures var o := Configure(w, c);
      && o.ret == Some(0) && o.w.current == w.requested && Watched(o.w.trace).ackedAt == Watched(w.trace).ackedAt
  {
    hide Watched, Brings, Brought, Passed, Works, SetUp, StateChange, FollowsUp, ConfigureUp, ConfigureBoot;
    ChangeWell(w, INIT, p.init);
    BroughtIs(LineOf(w), INIT, p.init);
    var init := StateChange(w, INIT);
    SetUpWell(init.w, 3);
    PassedIs(LineOf(init.w), 3);
    var cleared := SetUp(init.w, 3);
    if w.requested == BOOT {
      ConfigureBootWell(cleared.w, c, p);
    } else if w.requested != INIT {
      ConfigureUpWell(cleared.w, c, p);
    }
  }

  /** A slave that follows is brought into its requested state, whichever of the five it is and whatever is to be
      configured: the call succeeds, and the whole path has been taken with everything that belongs to it. */
  lemma FollowerIsBroughtUp(w: World, c: Config, p: Pace)
    requires w.trace == [] && ValidTarget(w.requested) && Follows(LineOf(w), w.requested, c, p)
    ensures var o := Configure(w, c);
      && o.ret == Some(0) && o.w.current == w.requested
      && Watched(o.w.trace).asked == PathTo(w.requested) && Complete(Watched(o.w.trace), c, w.requested)
  {
    hide Watched, Configure, Follows, Complete;
    ConfigureWell(w, c, p);
    WholePathIff(w, c);
    NothingWatched();
  }

  lemma NothingWatched()
    ensures Watched([]).ackedAt == {} && Watched([]).asked == []
  {
  }

  // ----- a concrete slave -----

  function Says(value: u32): Reply {
    Reply(0, value, 0)
  }

  /** Eleven exchanges bring a slave without a mailbox and without process data to OP: it is asked for INIT (1), PREOP
      (2), SAFEOP (4) and OP (8), and reports each state at once; three exchanges clear its old configuration. */
  lemma ElevenExchanges()
    ensures var script := [Says(0), Says(1), Says(0), Says(0), Says(0), Says(0), Says(2), Says(0), Says(4), Says(0),
                           Says(8)];
      var o := Configure(World(0, 8, 0, 0, script, []), Config(false, false, 0, false, false));
      o.ret == Some(0) && o.w.current == 8 && Watched(o.w.trace).asked == [1, 2, 4, 8]
  {
    var script := [Says(0), Says(1), Says(0), Says(0), Says(0), Says(0), Says(2), Says(0), Says(4), Says(0), Says(8)];
    var w := World(0, 8, 0, 0, script, []);
    var c := Config(false, false, 0, false, false);
    hide Configure, Watched, Timeout, Brings, Brought, Works, Passed, Complete, InStep;
    var up, safe := Line(script[5..], 1, 0), Line(script[7..], 2, 0);
    AtOnce(LineOf(w), 1);
    ThreeWork(Line(script[2..], 1, 0));
    assert script[2..][3..] == script[5..] && script[5..][2..] == script[7..] && script[7..][2..] == script[9..];
    NoneNeeded(up);
    AtOnce(up, 2);
    NoneNeeded(safe);
    AtOnce(safe, 4);
    AtOnce(Line(script[9..], 4, 0), 8);
    FollowerIsBroughtUp(w, c, Pace(0, 0, 0, 0, 0));
  }

  lemma AtOnce(l: Line, target: byte)
    requires |l.script| >= 2 && l.script[0].ret >= 0 && l.script[1].ret >= 0 && l.script[1].value % 0x100 == target
    ensures Brings(l, target, 0) && Brought(l, target, 0) == Line(l.script[2..], target, l.script[1].now)
  {
  }

  lemma ThreeWork(l: Line)
    requires |l.script| >= 3 && l.script[0].ret >= 0 && l.script[1].ret >= 0 && l.script[2].ret >= 0
    ensures Works(l, 3) && Passed(l, 3) == Line(l.script[3..], l.current, l.script[2].now)
  {
  }

  lemma NoneNeeded(l: Line)
    ensures Works(l, 0) && Passed(l, 0) == l
  {
  }

  // ----- how long the calls wait -----

  /** The limits for a wait in state `s` for `target`, in nanoseconds. */
  predicate Patience(s: byte, target: byte, e: nat) {
    && (s == 1 && (target == 2 || target == 3) ==> e > 3_000_000_000)
    && ((s == 2 && target == 4) || (s == 4 && target == 8) ==> e > 10_000_000_000)
    && (target == 1 || (s == 8 && target == 2) || (s == 4 && target == 2) ==> e > 5_000_000_000)
    && (s == 8 && target == 4 ==> e > 200_000_000)
    && e > 200_000_000
  }

  predicate Impatience(s: byte, target: byte, e: nat) {
    && (s == 1 && (target == 2 || target == 3) ==> e <= 3_000_000_000)
    && ((s == 2 && target == 4) || (s == 4 && target == 8) ==> e <= 10_000_000_000)
    && (target == 1 || (s == 8 && target == 2) || (s == 4 && target == 2) ==> e <= 5_000_000_000)
    && (s == 8 && target == 4 ==> e <= 200_000_000)
    && e <= 10_000_000_000
  }

  lemma LimitsAre(s: byte, target: byte, e: nat)
    ensures e > Timeout(s, target) ==> Patience(s, target, e)
    ensures e <= Timeout(s, target) ==> Impatience(s, target, e)
  {
  }

  /** With a working wire: whoever waits for a state gives up only after 3 s on the way from INIT to PREOP or BOOT, 10 s
      on the way up from there, 5 s for INIT and PREOP from above, and 200 ms from OP to SAFEOP, counted in the state
      last reported; and who is still waiting has not waited longer than that. */
  lemma WaitsAsLongAs(w: World, target: byte, before: byte, start: nat)
    requires AllWork(w.script)
    ensures var o := Poll(w, target, before, start);
      && w.trace <= o.w.trace
      && (AskCode !in o.w.trace[|w.trace|..] ==>
          && (o.ret == Some(-3) ==> Patience(o.w.current, target, Elapsed(o.w.now, start)))
          && (o.ret == None && w.script != [] ==> Impatience(o.w.current, target, Elapsed(o.w.now, start))))
  {
    hide Poll, Timeout, Elapsed, Patience, Impatience;
    PollLimit(w, target, before, start);
    var o := Poll(w, target, before, start);
    LimitsAre(o.w.current, target, Elapsed(o.w.now, start));
  }
}
