/** The calls of src/ec_slave.c that change a slave's state, with their loops, proved against SlaveConfig. */
module SlaveDevice {
  import opened Words
  import opened ErrorCodes
  import opened SlaveConfig

  /** ec_slave_t as far as its state is concerned, together with the wire. */
  class Slave {
    var current: byte
    var requested: byte
    var alStatusCode: u16
    var now: nat
    var script: seq<Reply>
    var trace: seq<Event>

    constructor (requested: byte, script: seq<Reply>)
      ensures State() == World(0, requested, 0, 0, script, [])
    {
      current, this.requested, alStatusCode, now := 0, requested, 0, 0;
      this.script, trace := script, [];
    }

    function State(): World
      reads this
    {
      World(current, requested, alStatusCode, now, script, trace)
    }

    /** ec_master_queue_ext_datagram */
    method Queue(e: Event) returns (ret: Option<int>, value: u32)
      modifies this
      ensures Out(State(), ret) == Exchange(old(State()), e)
      ensures ret.Some? ==> old(script) != [] && value == old(script)[0].value
    {
      trace := trace + [e];
      if script == [] {
        return None, 0;
      }
      ret, value, now := Some(script[0].ret), script[0].value, script[0].now;
      script := script[1..];
    }

    method QueueRead() returns (ret: Option<int>)
      modifies this
      ensures Out(State(), ret) == ReadStatus(old(State()))
    {
      if script == [] {
        return None;
      }
      var r := script[0];
      now, script := r.now, script[1..];
      if r.ret >= 0 {
        current := r.value % 0x100;
        trace := trace + [Status(current)];
      }
      ret := Some(r.ret);
    }

    method ClearAckError(target: byte) returns (ret: Option<int>)
      modifies this
      ensures Out(State(), ret) == SlaveConfig.ClearAckError(old(State()), target)
    {
      hide Timeout, AckPoll;
      var start := now;
      var code;
      ret, code := Queue(AskCode);
      if ret.None? || ret.value < 0 {
        return;
      }
      alStatusCode := code % 0x1_0000;
      ret, code := Queue(Ack(current));
      if ret.None? || ret.value < 0 {
        return;
      }
      ghost var all := AckPoll(State(), target, start);
      while true
        invariant AckPoll(State(), target, start) == all
        decreases |script|
      {
        AckPollStep(State(), target, start);
        ret := QueueRead();
        if ret.None? || ret.value < 0 {
          return;
        }
        if !AckError(current) {
          return Some(if current == requested then 0 else -EC_ERR_ALERR);
        }
        if Elapsed(now, start) > Timeout(current, target) {
          return Some(-EC_ERR_TIMEOUT);
        }
      }
    }

    method StateChange(target: byte) returns (ret: Option<int>)
      modifies this
      ensures Out(State(), ret) == SlaveConfig.StateChange(old(State()), target)
    {
      hide Timeout, Poll, SlaveConfig.ClearAckError;
      var before := current;
      var start := now;
      var value;
      ret, value := Queue(Request(target));
      if ret.None? || ret.value < 0 {
        return;
      }
      ghost var all := Poll(State(), target, before, start);
      while true
        invariant Poll(State(), target, before, start) == all
        decreases |script|
      {
        PollStep(State(), target, before, start);
        ret := QueueRead();
        if ret.None? || ret.value < 0 {
          return;
        }
        if current == target {
          return Some(0);
        }
        if current != before && current % 0x10 == before % 0x10 {
          ret := ClearAckError(target);
          return;
        }
        before := current;
        if Elapsed(now, start) > Timeout(current, target) {
          return Some(-EC_ERR_TIMEOUT);
        }
      }
    }

    /** Several exchanges in a row, each of which ends the call if it fails. */
    method SetUp(n: nat) returns (ret: Option<int>)
      modifies this
      ensures Out(State(), ret) == SlaveConfig.SetUp(old(State()), n)
    {
      hide SlaveConfig.SetUp;
      var left := n;
      ghost var all := SlaveConfig.SetUp(State(), n);
      while left > 0
        invariant SlaveConfig.SetUp(State(), left) == all
      {
        SetUpStep(State(), left);
        var value;
        ret, value := Queue(Setup);
        if ret.None? || ret.value < 0 {
          return;
        }
        left := left - 1;
      }
      SetUpStep(State(), 0);
      ret := Some(0);
    }

    method WaitForSync() returns (ret: Option<int>)
      modifies this
      ensures Out(State(), ret) == SlaveConfig.WaitForSync(old(State()), SYNC_WAIT_COUNT)
    {
      hide SlaveConfig.WaitForSync;
      var count := 0;
      ghost var all := SlaveConfig.WaitForSync(State(), SYNC_WAIT_COUNT);
      while true
        invariant count <= SYNC_WAIT_COUNT && SlaveConfig.WaitForSync(State(), SYNC_WAIT_COUNT - count) == all
        decreases SYNC_WAIT_COUNT - count
      {
        WaitStep(State(), SYNC_WAIT_COUNT - count);
        var value;
        ret, value := Queue(Setup);
        if ret.None? || ret.value < 0 {
          return;
        }
        if value % 0x8000_0000 > MAX_SYNC_DIFF_NS {
          count := count + 1;
          if count > SYNC_WAIT_COUNT {
            return Some(-EC_ERR_TIMEOUT);
          }
        } else {
          return Some(0);
        }
      }
    }

    /** ec_slave_config */
    method Configure(c: Config) returns (ret: Option<int>)
      modifies this
      ensures Out(State(), ret) == SlaveConfig.Configure(old(State()), c)
    {
      hide SlaveConfig.SetUp, SlaveConfig.StateChange, SlaveConfig.WaitForSync, SetUpProcessData;
      ret := StateChange(INIT);
      if ret.None? || ret.value < 0 {
        return;
      }
      ret := SetUp(3);
      if ret.None? || ret.value < 0 {
        return;
      }
      if current == requested {
        return Some(0);
      }
      if requested == BOOT {
        if !c.foe {
          return Some(-EC_ERR_NOSUPP);
        }
        ret := SetUp(1);
        if ret.None? || ret.value < 0 {
          return;
        }
        ret := StateChange(BOOT);
        if ret.None? || ret.value < 0 {
          return;
        }
        return Some(0);
      }
      ret := SetUp(if c.coe then 1 else 0);
      if ret.None? || ret.value < 0 {
        return;
      }
      ret := StateChange(PREOP);
      if ret.None? || ret.value < 0 {
        return;
      }
      if current == requested {
        return Some(0);
      }
      ret := PrepareProcessData(c);
      if ret.None? || ret.value < 0 {
        return;
      }
      ret := StateChange(SAFEOP);
      if ret.None? || ret.value < 0 {
        return;
      }
      if current == requested {
        return Some(0);
      }
      ret := StateChange(OP);
      if ret.None? || ret.value < 0 {
        return;
      }
      ret := Some(0);
    }

    method PrepareProcessData(c: Config) returns (ret: Option<int>)
      modifies this
      ensures Out(State(), ret) == SetUpProcessData(old(State()), c)
    {
      hide SlaveConfig.SetUp, SlaveConfig.WaitForSync;
      ret := SetUp(c.downloads + if c.configured then 2 else 0);
      if ret.None? || ret.value < 0 || !c.configured || !c.dc {
        return;
      }
      ret := SetUp(2);
      if ret.None? || ret.value < 0 {
        return;
      }
      ret := WaitForSync();
      if ret.None? || ret.value < 0 {
        return;
      }
      ret := SetUp(2);
    }
  }
}
