/** How a configuration fails (src/ec_slave.c:278-402, 426-799): with the error of the exchange that failed, or because
    the slave refuses, takes too long, or cannot do what it is asked for. */
module SlaveFails {
  import opened Words
  import opened ErrorCodes
  import opened SlaveConfig
  import opened SlaveFollows

  /** How many exchanges the call has used up. */
  function Used(w: World, o: Out): int {
    |w.script| - |o.w.script|
  }

  ghost predicate AllGood(s: seq<Reply>, n: int) {
    forall i :: 0 <= i < n && i < |s| ==> s[i].ret >= 0
  }

  /** The call stops at the first exchange that fails and returns its error. If none fails, it waits on only when there
      is nothing more to read, and its own errors are a time-out (3), an unsupported request (4) and a refusal (7). */
  ghost predicate Honest(w: World, o: Out) {
    var n := Used(w, o);
    && 0 <= n <= |w.script| && o.w.script == w.script[n..]
    && (AllGood(w.script, n) ==>
        && (o.ret == None ==> o.w.script == [])
        && (o.ret.Some? && o.ret.value < 0 ==> o.ret.value == -3 || o.ret.value == -4 || o.ret.value == -7))
    && (!AllGood(w.script, n) ==> n > 0 && AllGood(w.script, n - 1) && o.ret == Some(w.script[n - 1].ret))
  }

  lemma HonestThen(w: World, a: Out, b: Out)
    requires Honest(w, a) && Worked(a) && Honest(a.w, b)
    ensures Honest(w, b)
  {
    hide AllGood;
    var n, m := Used(w, a), Used(a.w, b);
    assert w.script[n..][m..] == w.script[n + m..];
    GoodThen(w.script, n, m);
    if !AllGood(w.script, n) {
      BadLast(w.script, n);
    }
    if m > 0 {
      GoodThen(w.script, n, m - 1);
      assert w.script[n..][m - 1] == w.script[n + m - 1];
    }
  }

  lemma BadLast(s: seq<Reply>, n: nat)
    requires 0 < n <= |s| && AllGood(s, n - 1) && !AllGood(s, n)
    ensures s[n - 1].ret < 0
  {
  }

  lemma GoodThen(s: seq<Reply>, n: nat, m: nat)
    requires n + m <= |s|
    ensures AllGood(s, n + m) <==> AllGood(s, n) && AllGood(s[n..], m)
  {
    assert forall i :: 0 <= i < |s| - n ==> s[n..][i] == s[n + i];
    if AllGood(s, n) && AllGood(s[n..], m) {
      forall i | 0 <= i < n + m ensures s[i].ret >= 0 {
        assert i >= n ==> s[i] == s[n..][i - n];
      }
    }
  }

  lemma HonestReturn(w: World, a: Out, ret: int)
    requires Honest(w, a) && Worked(a) && (ret >= 0 || ret == -3 || ret == -4 || ret == -7)
    ensures Honest(w, Out(a.w, Some(ret)))
  {
  }

  lemma ExchangeHonest(w: World, e: Event)
    ensures Honest(w, Exchange(w, e))
  {
  }

  lemma ReadStatusHonest(w: World)
    ensures Honest(w, ReadStatus(w))
  {
  }

  lemma NothingUsed(w: World, ret: int)
    requires ret >= 0 || ret == -3 || ret == -4 || ret == -7
    ensures Honest(w, Out(w, Some(ret)))
  {
  }

  lemma {:induction false} AckPollHonest(w: World, target: byte, start: nat)
    ensures Honest(w, AckPoll(w, target, start))
    decreases |w.script|
  {
    hide Honest, Timeout, Elapsed;
    ReadStatusHonest(w);
    var o := ReadStatus(w);
    if Worked(o) {
      HonestReturn(w, o, 0);
      HonestReturn(w, o, -EC_ERR_ALERR);
      HonestReturn(w, o, -EC_ERR_TIMEOUT);
      ReadStatusSeen(w);
      AckPollHonest(o.w, target, start);
      HonestThen(w, o, AckPoll(o.w, target, start));
    }
  }

  /** Noting the error code changes nothing here. */
  lemma HonestNoted(w: World, o: Out, code: u16)
    requires Honest(w.(alStatusCode := code), o)
    ensures Honest(w, o)
  {
  }

  lemma ClearAckErrorHonest(w: World, target: byte)
    ensures Honest(w, ClearAckError(w, target))
  {
    hide Honest, AckPoll;
    var code := Exchange(w, AskCode);
    ExchangeHonest(w, AskCode);
    if Worked(code) {
      var known := code.w.(alStatusCode := w.script[0].value % 0x1_0000);
      var ack := Exchange(known, Ack(w.current));
      ExchangeHonest(known, Ack(w.current));
      if Worked(ack) {
        AckPollHonest(ack.w, target, w.now);
        HonestThen(known, ack, AckPoll(ack.w, target, w.now));
      }
      HonestNoted(code.w, ClearAckError(w, target), w.script[0].value % 0x1_0000);
      HonestThen(w, code, ClearAckError(w, target));
    }
  }

  lemma {:induction false} PollHonest(w: World, target: byte, before: byte, start: nat)
    ensures Honest(w, Poll(w, target, before, start))
    decreases |w.script|
  {
    hide Honest, Timeout, Elapsed, ClearAckError;
    ReadStatusHonest(w);
    var o := ReadStatus(w);
    if Worked(o) {
      HonestReturn(w, o, 0);
      HonestReturn(w, o, -EC_ERR_TIMEOUT);
      ClearAckErrorHonest(o.w, target);
      HonestThen(w, o, ClearAckError(o.w, target));
      ReadStatusSeen(w);
      PollHonest(o.w, target, o.w.current, start);
      HonestThen(w, o, Poll(o.w, target, o.w.current, start));
    }
  }

  lemma StateChangeHonest(w: World, target: byte)
    ensures Honest(w, StateChange(w, target))
  {
    hide Honest, Poll;
    var o := Exchange(w, Request(target));
    ExchangeHonest(w, Request(target));
    if Worked(o) {
      PollHonest(o.w, target, w.current, w.now);
      HonestThen(w, o, StateChange(w, target));
    }
  }

  lemma {:induction false} SetUpHonest(w: World, n: nat)
    ensures Honest(w, SetUp(w, n))
    decreases n
  {
    hide Honest;
    if n == 0 {
      NothingUsed(w, 0);
    } else {
      var o := Exchange(w, Setup);
      ExchangeHonest(w, Setup);
      if Worked(o) {
        SetUpHonest(o.w, n - 1);
        HonestThen(w, o, SetUp(o.w, n - 1));
      }
    }
  }

  lemma {:induction false} WaitHonest(w: World, tries: nat)
    ensures Honest(w, WaitForSync(w, tries))
    decreases tries
  {
    hide Honest;
    var o := Exchange(w, Setup);
    ExchangeHonest(w, Setup);
    if Worked(o) {
      HonestReturn(w, o, 0);
      HonestReturn(w, o, -EC_ERR_TIMEOUT);
      if tries > 0 {
        WaitHonest(o.w, tries - 1);
        HonestThen(w, o, WaitForSync(o.w, tries - 1));
      }
    }
  }

  lemma ClocksHonest(w: World)
    ensures Honest(w, SetUpClocks(w))
  {
    hide Honest, SetUp, WaitForSync;
    var before := SetUp(w, 2);
    SetUpHonest(w, 2);
    if Worked(before) {
      var sync := WaitForSync(before.w, SYNC_WAIT_COUNT);
      WaitHonest(before.w, SYNC_WAIT_COUNT);
      HonestThen(w, before, sync);
      if Worked(sync) {
        SetUpHonest(sync.w, 2);
        HonestThen(w, sync, SetUp(sync.w, 2));
      }
    }
  }

  lemma ProcessDataHonest(w: World, c: Config)
    ensures Honest(w, SetUpProcessData(w, c))
  {
    hide Honest, SetUp, SetUpClocks;
    var n := c.downloads + if c.configured then 2 else 0;
    SetUpHonest(w, n);
    var o := SetUp(w, n);
    if Worked(o) {
      ClocksHonest(o.w);
      HonestThen(w, o, SetUpClocks(o.w));
    }
  }

  lemma ConfigureDataHonest(w: World, c: Config)
    ensures Honest(w, ConfigureData(w, c))
  {
    hide Honest, SetUpProcessData, StateChange;
    var data := SetUpProcessData(w, c);
    ProcessDataHonest(w, c);
    if Worked(data) {
      var safeop := StateChange(data.w, SAFEOP);
      StateChangeHonest(data.w, SAFEOP);
      HonestThen(w, data, safeop);
      if Worked(safeop) {
        HonestReturn(w, safeop, 0);
        var op := StateChange(safeop.w, OP);
        StateChangeHonest(safeop.w, OP);
        HonestThen(w, safeop, op);
        if Worked(op) {
          HonestReturn(w, op, 0);
        }
      }
    }
  }

  lemma ConfigureUpHonest(w: World, c: Config)
    ensures Honest(w, ConfigureUp(w, c))
  {
    hide Honest, SetUp, StateChange, ConfigureData;
    var mailbox := SetUp(w, if c.coe then 1 else 0);
    SetUpHonest(w, if c.coe then 1 else 0);
    if Worked(mailbox) {
      var preop := StateChange(mailbox.w, PREOP);
      StateChangeHonest(mailbox.w, PREOP);
      HonestThen(w, mailbox, preop);
      if Worked(preop) {
        HonestReturn(w, preop, 0);
        ConfigureDataHonest(preop.w, c);
        HonestThen(w, preop, ConfigureData(preop.w, c));
      }
    }
  }

  lemma ConfigureBootHonest(w: World, c: Config)
    ensures Honest(w, ConfigureBoot(w, c))
  {
    hide Honest, SetUp, StateChange;
    NothingUsed(w, -EC_ERR_NOSUPP);
    var mailbox := SetUp(w, 1);
    SetUpHonest(w, 1);
    if Worked(mailbox) {
      var boot := StateChange(mailbox.w, BOOT);
      StateChangeHonest(mailbox.w, BOOT);
      HonestThen(w, mailbox, boot);
      if Worked(boot) {
        HonestReturn(w, boot, 0);
      }
    }
  }

  /** Against any answers, ec_slave_config stops at the first exchange that fails and returns its error; without such a
      failure it fails only because it waited too long, FoE is missing, or the slave refuses. */
  lemma ConfigureIsHonest(w: World, c: Config)
    ensures Honest(w, Configure(w, c))
  {
    hide Honest, SetUp, StateChange, ConfigureBoot, ConfigureUp;
    var init := StateChange(w, INIT);
    StateChangeHonest(w, INIT);
    if Worked(init) {
      var cleared := SetUp(init.w, 3);
      SetUpHonest(init.w, 3);
      HonestThen(w, init, cleared);
      if Worked(cleared) {
        HonestReturn(w, cleared, 0);
        ConfigureBootHonest(cleared.w, c);
        ConfigureUpHonest(cleared.w, c);
        HonestThen(w, cleared, ConfigureBoot(cleared.w, c));
        HonestThen(w, cleared, ConfigureUp(cleared.w, c));
      }
    }
  }

  // ----- the errors of the call itself -----

  /** A slave that refuses: asked for another state it reports the one it is in with the error bit, and after the
      acknowledgement without. If that is not the state it is to have in the end, the call says so, and the slave's
      error code is noted. */
  lemma RefusalIsReported(w: World, target: byte, code: u32)
    requires |w.script| >= 5 && (forall i :: 0 <= i < 5 ==> w.script[i].ret >= 0)
    requires w.current < 0x10 && w.current != target && target < 0x10 && w.current != w.requested
    requires w.script[1].value % 0x100 == w.current + 0x10 && w.script[2].value == code
    requires w.script[4].value % 0x100 == w.current
    ensures var o := StateChange(w, target);
      && o.ret == Some(-7) && o.w.current == w.current && o.w.alStatusCode == code % 0x1_0000
      && o.w.trace == w.trace + [Request(target), Status(w.current + 0x10), AskCode, Ack(w.current + 0x10),
                                 Status(w.current)]
  {
    hide Timeout, Elapsed, Poll, AckPoll;
    var s := w.script;
    var asked := Exchange(w, Request(target)).w;
    assert asked.script == s[1..];
    var read := ReadStatus(asked).w;
    assert read.script == s[2..] && read.current == w.current + 0x10;
    var known := Exchange(read, AskCode).w.(alStatusCode := code % 0x1_0000);
    assert known.script == s[3..];
    var ack := Exchange(known, Ack(read.current)).w;
    assert ack.script == s[4..];
    var again := ReadStatus(ack).w;
    assert again.current == w.current;
    AckPollStep(ack, target, read.now);
    PollStep(asked, target, w.current, w.now);
    assert again.trace == w.trace + [Request(target), Status(w.current + 0x10), AskCode, Ack(w.current + 0x10),
                                     Status(w.current)];
  }

  /** A slave whose clock never comes close enough: after the first read and 15000 more the call gives up. */
  lemma {:induction false} NeverInStep(w: World, tries: nat)
    requires Works(LineOf(w), tries + 1) && forall i :: 0 <= i <= tries ==> w.script[i].value % 0x8000_0000 > 100
    ensures var o := WaitForSync(w, tries); o.ret == Some(-3) && o.w.script == w.script[tries + 1..]
    decreases tries
  {
    var o := Exchange(w, Setup);
    if tries == 0 {
    } else {
      assert forall i :: 1 <= i < |w.script| ==> w.script[1..][i - 1] == w.script[i];
      NeverInStep(o.w, tries - 1);
      assert w.script[1..][tries..] == w.script[tries + 1..];
    }
  }

  lemma ClocksGiveUp(w: World)
    requires Works(LineOf(w), 15003) && forall i :: 2 <= i < 15003 ==> w.script[i].value % 0x8000_0000 > 100
    ensures var o := SetUpClocks(w); o.ret == Some(-3) && o.w.script == w.script[15003..]
  {
    hide Watched, SetUp, WaitForSync;
    SetUpWell(w, 2);
    var before := SetUp(w, 2);
    assert before.w.script == w.script[2..];
    assert forall i :: 0 <= i < |before.w.script| ==> before.w.script[i] == w.script[i + 2];
    NeverInStep(before.w, 15000);
    assert w.script[2..][15001..] == w.script[15003..];
  }

  /** BOOT needs FoE: a slave that goes to INIT but has no FoE is not asked for BOOT. */
  lemma BootNeedsFoe(w: World, c: Config, n: nat)
    requires w.trace == [] && w.requested == BOOT && !c.foe
    requires Brings(LineOf(w), INIT, n) && Works(Brought(LineOf(w), INIT, n), 3)
    ensures var o := Configure(w, c); o.ret == Some(-4) && o.w.current == INIT && Watched(o.w.trace).asked == [INIT]
  {
    hide Watched, Brings, Brought, Passed, Works, SetUp, StateChange;
    ChangeWell(w, INIT, n);
    BroughtIs(LineOf(w), INIT, n);
    var init := StateChange(w, INIT);
    SetUpWell(init.w, 3);
    PassedIs(LineOf(init.w), 3);
    NothingWatched();
    StateChangeSeen(w, INIT);
    SetUpSeen(init.w, 3);
  }
}
