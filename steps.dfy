/** One poll of a channel read or write, as a pure transition: from what the
    poll observes (connection state, elapsed time, channel status, the
    receive descriptor word) and the bytes gathered so far, to the poll's
    outcome and the register action it takes. `RunRead`/`RunWrite` feed a
    sequence of observations to successive polls, as the executor does when
    it re-polls the transfer after each wake. */
module Steps {
  import opened Types
  import opened Registers
  import opened BufferTable

  /** What a poll does to the channel's status before returning. */
  datatype Action = NoAction | DisableChannel | Rearm

  /** `t0.elapsed() > Duration::from_millis(timeout_ms)` when a timeout is set. */
  predicate TimedOut(elapsedMs: nat, timeoutMs: Option<nat>)
  {
    timeoutMs.Some? && elapsedMs > timeoutMs.value
  }

  /** One read poll: its outcome, its action, the new running count, and the
      number of bytes it copied out of packet memory. */
  datatype ReadStep = ReadStep(poll: Poll<Result<nat>>, action: Action, count: nat, received: nat)

  /** The body of the read closure: disconnect first, then timeout, then the
      receive status. On Disabled the received count is read from the
      descriptor; more than the room left is an overflow, otherwise the bytes
      are taken and the read ends on a full buffer or a short packet, or
      re-arms for the next packet. */
  function ReadStepOf(connected: bool, elapsedMs: nat, timeoutMs: Option<nat>, statRx: bv2,
                      descWord: u32, count: nat, bufLen: nat, maxPacketSize: u16): (s: ReadStep)
    requires count <= bufLen
    ensures count <= s.count <= bufLen && s.count == count + s.received
    ensures s.action == DisableChannel <==> (!connected || TimedOut(elapsedMs, timeoutMs))
    ensures !connected ==> s == ReadStep(Ready(Err(Disconnected)), DisableChannel, count, 0)
    ensures connected && TimedOut(elapsedMs, timeoutMs) ==> s == ReadStep(Ready(Err(Timeout)), DisableChannel, count, 0)
    ensures s.received > 0 ==> statRx == STAT_DISABLED && s.received == ReceivedCount(descWord)
    ensures s.action == Rearm ==> s.poll.Pending? && s.received >= maxPacketSize && s.count < bufLen
    ensures s.poll == Ready(Err(BufferOverflow)) <==>
      connected && !TimedOut(elapsedMs, timeoutMs) && statRx == STAT_DISABLED &&
      ReceivedCount(descWord) > bufLen - count
    ensures s.poll == Ready(Err(Stall)) <==> connected && !TimedOut(elapsedMs, timeoutMs) && statRx == STAT_STALL
    ensures s.poll.Ready? && s.poll.value.Ok? <==>
      connected && !TimedOut(elapsedMs, timeoutMs) && statRx == STAT_DISABLED &&
      ReceivedCount(descWord) <= bufLen - count &&
      (count + ReceivedCount(descWord) == bufLen || ReceivedCount(descWord) < maxPacketSize)
    ensures s.poll.Ready? && s.poll.value.Ok? ==> s.poll.value.value == s.count && s.action == NoAction
    ensures s.poll.Pending? ==> s.action != DisableChannel && (s.action == Rearm <==> statRx == STAT_DISABLED)
    ensures connected && !TimedOut(elapsedMs, timeoutMs) && (statRx == STAT_NAK || statRx == STAT_VALID) ==>
      s == ReadStep(Pending, NoAction, count, 0)
    ensures (s.poll.Ready? && s.poll.value.Ok?) || s.action == Rearm ==> s.received == ReceivedCount(descWord)
    ensures var n := ReceivedCount(descWord);
      (connected && !TimedOut(elapsedMs, timeoutMs) && statRx == STAT_DISABLED &&
       n <= bufLen - count && count + n != bufLen && n >= maxPacketSize) ==>
      s == ReadStep(Pending, Rearm, count + n, n)
  {
    if !connected then
      ReadStep(Ready(Err(Disconnected)), DisableChannel, count, 0)
    else if TimedOut(elapsedMs, timeoutMs) then
      ReadStep(Ready(Err(Timeout)), DisableChannel, count, 0)
    else if statRx == STAT_DISABLED then
      var n := ReceivedCount(descWord);
      if n > bufLen - count then
        ReadStep(Ready(Err(BufferOverflow)), NoAction, count, 0)
      else if count + n == bufLen || n < maxPacketSize then
        ReadStep(Ready(Ok(count + n)), NoAction, count + n, n)
      else
        ReadStep(Pending, Rearm, count + n, n)
    else if statRx == STAT_STALL then
      ReadStep(Ready(Err(Stall)), NoAction, count, 0)
    else
      ReadStep(Pending, NoAction, count, 0)
  }

  /** One write poll: its outcome and its action. */
  datatype WriteStep = WriteStep(poll: Poll<Result<()>>, action: Action)

  /** The body of the write closure: disconnect, then timeout, then the
      transmit status (Disabled means the data was sent). */
  function WriteStepOf(connected: bool, elapsedMs: nat, timeoutMs: Option<nat>, statTx: bv2): (s: WriteStep)
    ensures s.action != Rearm
    ensures s.action == DisableChannel <==> (!connected || TimedOut(elapsedMs, timeoutMs))
    ensures !connected ==> s.poll == Ready(Err(Disconnected))
    ensures connected && TimedOut(elapsedMs, timeoutMs) ==> s.poll == Ready(Err(Timeout))
    ensures s.poll == Ready(Ok(())) <==> connected && !TimedOut(elapsedMs, timeoutMs) && statTx == STAT_DISABLED
    ensures s.poll == Ready(Err(Stall)) <==> connected && !TimedOut(elapsedMs, timeoutMs) && statTx == STAT_STALL
    ensures s.poll.Pending? <==>
      connected && !TimedOut(elapsedMs, timeoutMs) && (statTx == STAT_NAK || statTx == STAT_VALID)
  {
    if !connected then
      WriteStep(Ready(Err(Disconnected)), DisableChannel)
    else if TimedOut(elapsedMs, timeoutMs) then
      WriteStep(Ready(Err(Timeout)), DisableChannel)
    else if statTx == STAT_DISABLED then
      WriteStep(Ready(Ok(())), NoAction)
    else if statTx == STAT_STALL then
      WriteStep(Ready(Err(Stall)), NoAction)
    else
      WriteStep(Pending, NoAction)
  }

  /** What one poll of a transfer observes. */
  datatype InObservation = InObservation(connected: bool, elapsedMs: nat, statRx: bv2, descWord: u32)
  datatype OutObservation = OutObservation(connected: bool, elapsedMs: nat, statTx: bv2)

  /** The outcome of feeding observations to successive read polls, stopping
      at the first Ready: the final poll, the count, how many polls ran, the
      sizes of the packets taken in order, how often the channel was re-armed
      and the action of the poll that ended the run (NoAction while pending,
      even when the last poll re-armed). */
  datatype ReadRun = ReadRun(poll: Poll<Result<nat>>, count: nat, polls: nat, packets: seq<nat>,
                             rearms: nat, lastAction: Action)

  function Sum(xs: seq<nat>): nat
  {
    if xs == [] then 0 else xs[0] + Sum(xs[1..])
  }

  /** Successive read polls from running count `count`. The count accumulates
      exactly the packets taken and never exceeds the buffer; every packet
      except the one that ends the read is full-sized, and the channel is
      re-armed once after each of those and never after the last. */
  function RunRead(obs: seq<InObservation>, timeoutMs: Option<nat>, count: nat, bufLen: nat,
                   maxPacketSize: u16): (r: ReadRun)
    requires count <= bufLen
    ensures count <= r.count <= bufLen
    ensures r.count == count + Sum(r.packets)
    ensures r.polls <= |obs| && (r.poll.Pending? ==> r.polls == |obs|) && (r.poll.Ready? ==> r.polls >= 1)
    ensures r.poll.Pending? ==> r.lastAction == NoAction
    ensures forall i :: 0 <= i < |r.packets| && (r.poll.Pending? || i < |r.packets| - 1) ==> r.packets[i] >= maxPacketSize
    ensures r.rearms == if r.poll.Ready? && r.poll.value.Ok? then |r.packets| - 1 else |r.packets|
    ensures r.poll.Ready? && r.poll.value.Ok? ==> r.poll.value.value == r.count && |r.packets| > 0
    decreases |obs|
  {
    if obs == [] then
      ReadRun(Pending, count, 0, [], 0, NoAction)
    else
      var o := obs[0];
      var s := ReadStepOf(o.connected, o.elapsedMs, timeoutMs, o.statRx, o.descWord, count, bufLen, maxPacketSize);
      if s.poll.Ready? then
        if s.poll.value.Ok? then
          ReadRun(s.poll, s.count, 1, [s.received], 0, s.action)
        else
          ReadRun(s.poll, s.count, 1, [], 0, s.action)
      else
        var rest := RunRead(obs[1..], timeoutMs, s.count, bufLen, maxPacketSize);
        if s.action == Rearm then
          var packets := [s.received] + rest.packets;
          assert packets[1..] == rest.packets;
          ReadRun(rest.poll, rest.count, rest.polls + 1, packets, rest.rearms + 1, rest.lastAction)
        else
          ReadRun(rest.poll, rest.count, rest.polls + 1, rest.packets, rest.rearms, rest.lastAction)
  }

  /** A poll that can only wait: connected, in time, and the status says the
      transaction has not completed. */
  predicate InWaiting(o: InObservation, timeoutMs: Option<nat>)
  {
    o.connected && !TimedOut(o.elapsedMs, timeoutMs) && (o.statRx == STAT_NAK || o.statRx == STAT_VALID)
  }

  /** Whatever Nak/Valid polls came first, the first poll that sees the
      device gone ends the read with Disconnected and disables the channel. */
  lemma {:induction false} ReadDisconnectEnds(obs: seq<InObservation>, timeoutMs: Option<nat>, count: nat,
                                              bufLen: nat, maxPacketSize: u16, k: nat)
    requires count <= bufLen && k < |obs|
    requires forall i :: 0 <= i < k ==> InWaiting(obs[i], timeoutMs)
    requires !obs[k].connected
    ensures RunRead(obs, timeoutMs, count, bufLen, maxPacketSize) ==
      ReadRun(Ready(Err(Disconnected)), count, k + 1, [], 0, DisableChannel)
  {
    if k > 0 {
      ReadDisconnectEnds(obs[1..], timeoutMs, count, bufLen, maxPacketSize, k - 1);
    }
  }

  /** The byte counts the Disabled observations among `obs` report, in order. */
  function TakenCounts(obs: seq<InObservation>): seq<nat>
    decreases |obs|
  {
    if obs == [] then []
    else HeadTaken(obs[0]) + TakenCounts(obs[1..])
  }

  /** A poll after which the read can go on: connected, in time, not stalled. */
  predicate ReadGoesOn(o: InObservation, timeoutMs: Option<nat>)
  {
    o.connected && !TimedOut(o.elapsedMs, timeoutMs) && o.statRx != STAT_STALL
  }

  lemma SumCons(x: seq<nat>, xs: seq<nat>)
    requires |x| <= 1
    ensures Sum(x + xs) == Sum(x) + Sum(xs)
  {
    if |x| == 1 {
      assert (x + xs)[1..] == xs;
    } else {
      assert x + xs == xs;
    }
  }

  lemma TakenCountsCons(obs: seq<InObservation>, k: nat)
    requires k < |obs|
    ensures TakenCounts(obs[..k + 1]) == HeadTaken(obs[0]) + TakenCounts(obs[1..][..k])
  {
    assert obs[..k + 1][1..] == obs[1..][..k];
  }

  /** How many polls of a run saw the read go on: all of them while it is
      pending, all but the last once it has ended. */
  function Waited(r: ReadRun): nat
  {
    if r.poll.Ready? && r.polls > 0 then r.polls - 1 else r.polls
  }

  /** The packet the last poll of a run took: the count its observation
      reports when the run succeeded, none otherwise. */
  function LastTaken(obs: seq<InObservation>, r: ReadRun): seq<nat>
  {
    if r.poll.Ready? && r.poll.value.Ok? && Waited(r) < |obs| then [ReceivedCount(obs[Waited(r)].descWord)] else []
  }

  /** The running count after the Disabled observations among the first `k`. */
  function CountBefore(obs: seq<InObservation>, count: nat, k: nat): nat
    requires k <= |obs|
  {
    count + Sum(TakenCounts(obs[..k]))
  }

  /** The Disabled count an observation contributes, if any. */
  function HeadTaken(o: InObservation): seq<nat>
  {
    if o.statRx == STAT_DISABLED then [ReceivedCount(o.descWord)] else []
  }

  /** A run whose first poll is Pending is that poll's packet, if it took one,
      followed by the run of the remaining observations from the new count. */
  lemma RunReadStep(obs: seq<InObservation>, timeoutMs: Option<nat>, count: nat, bufLen: nat, maxPacketSize: u16)
    requires count <= bufLen && obs != []
    requires ReadStepOf(obs[0].connected, obs[0].elapsedMs, timeoutMs, obs[0].statRx, obs[0].descWord,
                        count, bufLen, maxPacketSize).poll.Pending?
    ensures var s := ReadStepOf(obs[0].connected, obs[0].elapsedMs, timeoutMs, obs[0].statRx, obs[0].descWord,
                                count, bufLen, maxPacketSize);
      var rest := RunRead(obs[1..], timeoutMs, s.count, bufLen, maxPacketSize);
      && s.count == count + Sum(HeadTaken(obs[0]))
      && RunRead(obs, timeoutMs, count, bufLen, maxPacketSize) ==
         ReadRun(rest.poll, rest.count, rest.polls + 1, HeadTaken(obs[0]) + rest.packets,
                 rest.rearms + |HeadTaken(obs[0])|, rest.lastAction)
  {
    assert HeadTaken(obs[0]) != [] ==> Sum(HeadTaken(obs[0])) == HeadTaken(obs[0])[0];
  }

  /** The packets of a run one poll longer than `rest`, taking `HeadTaken(obs[0])`
      first, read off observations the way those of `rest` are read off `obs[1..]`. */
  lemma TakesStep(obs: seq<InObservation>, rest: ReadRun, r: ReadRun)
    requires obs != [] && Waited(rest) <= |obs| - 1
    requires rest.poll.Ready? ==> rest.polls >= 1
    requires rest.packets == TakenCounts(obs[1..][..Waited(rest)]) + LastTaken(obs[1..], rest)
    requires r == ReadRun(rest.poll, rest.count, rest.polls + 1, HeadTaken(obs[0]) + rest.packets,
                          rest.rearms + |HeadTaken(obs[0])|, rest.lastAction)
    ensures Waited(r) <= |obs| && r.packets == TakenCounts(obs[..Waited(r)]) + LastTaken(obs, r)
  {
    var w := Waited(rest);
    assert Waited(r) == w + 1;
    TakenCountsCons(obs, w);
    assert w < |obs[1..]| ==> obs[w + 1] == obs[1..][w];
    assert LastTaken(obs, r) == LastTaken(obs[1..], rest);
  }

  /** Dropping the first observation moves the count by what it took. */
  lemma CountBeforeCons(obs: seq<InObservation>, count: nat, k: nat)
    requires k < |obs|
    ensures CountBefore(obs, count, k + 1) == CountBefore(obs[1..], count + Sum(HeadTaken(obs[0])), k)
  {
    TakenCountsCons(obs, k);
    SumCons(HeadTaken(obs[0]), TakenCounts(obs[1..][..k]));
  }

  /** The count before the last poll of a run one poll longer than `rest`, whose
      first poll moved the count from `count` to `count + Sum(HeadTaken(obs[0]))`. */
  lemma CountBeforeStep(obs: seq<InObservation>, count: nat, rest: ReadRun, r: ReadRun)
    requires obs != [] && Waited(rest) < |obs| - 1
    requires rest.poll.Ready? && rest.polls >= 1
    requires r.poll == rest.poll && r.polls == rest.polls + 1
    ensures Waited(r) == Waited(rest) + 1 && obs[Waited(r)] == obs[1..][Waited(rest)]
    ensures CountBefore(obs, count, Waited(r)) ==
            CountBefore(obs[1..], count + Sum(HeadTaken(obs[0])), Waited(rest))
  {
    CountBeforeCons(obs, count, Waited(rest));
  }

  /** The `i`-th poll of a run from `count`, taken from the count the packets
      before it reached, stays pending. */
  predicate PendingAt(obs: seq<InObservation>, timeoutMs: Option<nat>, count: nat, bufLen: nat,
                      maxPacketSize: u16, i: nat)
    requires i < |obs|
  {
    && CountBefore(obs, count, i) <= bufLen
    && var o := obs[i];
       ReadStepOf(o.connected, o.elapsedMs, timeoutMs, o.statRx, o.descWord,
                  CountBefore(obs, count, i), bufLen, maxPacketSize).poll.Pending?
  }

  /** A pending first poll followed by polls pending on `obs[1..]` from the new
      count are polls pending on `obs` from `count`. */
  lemma PendingStep(obs: seq<InObservation>, timeoutMs: Option<nat>, count: nat, next: nat, bufLen: nat,
                    maxPacketSize: u16, k: nat)
    requires count <= bufLen && 0 < k <= |obs| && next == count + Sum(HeadTaken(obs[0]))
    requires ReadStepOf(obs[0].connected, obs[0].elapsedMs, timeoutMs, obs[0].statRx, obs[0].descWord,
                        count, bufLen, maxPacketSize).poll.Pending?
    requires forall i :: 0 <= i < k - 1 ==> PendingAt(obs[1..], timeoutMs, next, bufLen, maxPacketSize, i)
    ensures forall i :: 0 <= i < k ==> PendingAt(obs, timeoutMs, count, bufLen, maxPacketSize, i)
  {
    assert obs[..0] == [];
    forall i | 0 <= i < k
      ensures PendingAt(obs, timeoutMs, count, bufLen, maxPacketSize, i)
    {
      if i > 0 {
        CountBeforeCons(obs, count, i - 1);
        assert obs[i] == obs[1..][i - 1];
        assert PendingAt(obs[1..], timeoutMs, next, bufLen, maxPacketSize, i - 1);
      }
    }
  }

  /** Every poll of a read run before its last stayed pending, each taken from
      the count the packets before it reached. */
  lemma {:induction false} RunReadPendingUntilLast(obs: seq<InObservation>, timeoutMs: Option<nat>, count: nat,
                                                   bufLen: nat, maxPacketSize: u16)
    requires count <= bufLen
    ensures var r := RunRead(obs, timeoutMs, count, bufLen, maxPacketSize);
      Waited(r) <= |obs| && forall i :: 0 <= i < Waited(r) ==> PendingAt(obs, timeoutMs, count, bufLen, maxPacketSize, i)
    decreases |obs|
  {
    if obs != [] {
      var o := obs[0];
      var s := ReadStepOf(o.connected, o.elapsedMs, timeoutMs, o.statRx, o.descWord, count, bufLen, maxPacketSize);
      if s.poll.Pending? {
        var rest := RunRead(obs[1..], timeoutMs, s.count, bufLen, maxPacketSize);
        RunReadStep(obs, timeoutMs, count, bufLen, maxPacketSize);
        RunReadPendingUntilLast(obs[1..], timeoutMs, s.count, bufLen, maxPacketSize);
        PendingStep(obs, timeoutMs, count, s.count, bufLen, maxPacketSize, Waited(rest) + 1);
      }
    }
  }

  /** Every poll of a read run before its last could go on. */
  lemma {:induction false} RunReadGoesOnUntilLast(obs: seq<InObservation>, timeoutMs: Option<nat>, count: nat,
                                                  bufLen: nat, maxPacketSize: u16)
    requires count <= bufLen
    ensures var r := RunRead(obs, timeoutMs, count, bufLen, maxPacketSize);
      Waited(r) <= |obs| && forall i :: 0 <= i < Waited(r) ==> ReadGoesOn(obs[i], timeoutMs)
    decreases |obs|
  {
    if obs != [] {
      var o := obs[0];
      var s := ReadStepOf(o.connected, o.elapsedMs, timeoutMs, o.statRx, o.descWord, count, bufLen, maxPacketSize);
      if s.poll.Pending? {
        RunReadGoesOnUntilLast(obs[1..], timeoutMs, s.count, bufLen, maxPacketSize);
        assert forall i :: 1 <= i < |obs| ==> obs[i] == obs[1..][i - 1];
      }
    }
  }

  /** The packets a read run takes are the counts the Disabled observations
      before its last poll report, then on success the count of the last. */
  lemma {:induction false} RunReadTakes(obs: seq<InObservation>, timeoutMs: Option<nat>, count: nat,
                                        bufLen: nat, maxPacketSize: u16)
    requires count <= bufLen
    ensures var r := RunRead(obs, timeoutMs, count, bufLen, maxPacketSize);
      Waited(r) <= |obs| && r.packets == TakenCounts(obs[..Waited(r)]) + LastTaken(obs, r)
    decreases |obs|
  {
    if obs != [] {
      var o := obs[0];
      var s := ReadStepOf(o.connected, o.elapsedMs, timeoutMs, o.statRx, o.descWord, count, bufLen, maxPacketSize);
      if s.poll.Pending? {
        var rest := RunRead(obs[1..], timeoutMs, s.count, bufLen, maxPacketSize);
        RunReadStep(obs, timeoutMs, count, bufLen, maxPacketSize);
        RunReadTakes(obs[1..], timeoutMs, s.count, bufLen, maxPacketSize);
        TakesStep(obs, rest, RunRead(obs, timeoutMs, count, bufLen, maxPacketSize));
      } else {
        assert obs[..0] == [];
      }
    }
  }

  /** What `RunReadEnds` states of `rest` on `obs[1..]` from `next`, it states of
      a run one poll longer on `obs` from `count`, when the first poll moved the
      count from `count` to `next`. */
  lemma EndsStep(obs: seq<InObservation>, timeoutMs: Option<nat>, count: nat, next: nat, bufLen: nat,
                 maxPacketSize: u16, rest: ReadRun, r: ReadRun)
    requires obs != [] && next == count + Sum(HeadTaken(obs[0]))
    requires rest.poll.Ready? ==> rest.polls >= 1
    requires r.poll == rest.poll && r.polls == rest.polls + 1 && r.lastAction == rest.lastAction
    requires rest.poll.Ready? ==>
        && Waited(rest) < |obs[1..]| && CountBefore(obs[1..], next, Waited(rest)) <= bufLen
        && var o := obs[1..][Waited(rest)];
           var s := ReadStepOf(o.connected, o.elapsedMs, timeoutMs, o.statRx, o.descWord,
                               CountBefore(obs[1..], next, Waited(rest)), bufLen, maxPacketSize);
           rest.poll == s.poll && rest.lastAction == s.action
    ensures r.poll.Ready? ==>
        && Waited(r) < |obs| && CountBefore(obs, count, Waited(r)) <= bufLen
        && var o := obs[Waited(r)];
           var s := ReadStepOf(o.connected, o.elapsedMs, timeoutMs, o.statRx, o.descWord,
                               CountBefore(obs, count, Waited(r)), bufLen, maxPacketSize);
           r.poll == s.poll && r.lastAction == s.action
  {
    if rest.poll.Ready? {
      CountBeforeStep(obs, count, rest, r);
    }
  }

  /** A read run whose first poll is Ready ends with that poll's step. */
  lemma RunReadEndsAtFirst(obs: seq<InObservation>, timeoutMs: Option<nat>, count: nat,
                           bufLen: nat, maxPacketSize: u16)
    requires count <= bufLen && obs != []
    requires ReadStepOf(obs[0].connected, obs[0].elapsedMs, timeoutMs, obs[0].statRx, obs[0].descWord,
                        count, bufLen, maxPacketSize).poll.Ready?
    ensures var r := RunRead(obs, timeoutMs, count, bufLen, maxPacketSize);
      var s := ReadStepOf(obs[0].connected, obs[0].elapsedMs, timeoutMs, obs[0].statRx, obs[0].descWord,
                          count, bufLen, maxPacketSize);
      && Waited(r) == 0 && CountBefore(obs, count, 0) == count
      && r.poll == s.poll && r.lastAction == s.action
  {
    assert obs[..0] == [];
  }

  /** A finished read run ends with the step of its last observation, taken
      at the count the packets before it reached. */
  lemma {:induction false} RunReadEnds(obs: seq<InObservation>, timeoutMs: Option<nat>, count: nat,
                                       bufLen: nat, maxPacketSize: u16)
    requires count <= bufLen
    ensures var r := RunRead(obs, timeoutMs, count, bufLen, maxPacketSize);
      r.poll.Ready? ==>
        && Waited(r) < |obs| && CountBefore(obs, count, Waited(r)) <= bufLen
        && var o := obs[Waited(r)];
           var s := ReadStepOf(o.connected, o.elapsedMs, timeoutMs, o.statRx, o.descWord,
                               CountBefore(obs, count, Waited(r)), bufLen, maxPacketSize);
           r.poll == s.poll && r.lastAction == s.action
    decreases |obs|
  {
    if obs != [] {
      var o := obs[0];
      var s := ReadStepOf(o.connected, o.elapsedMs, timeoutMs, o.statRx, o.descWord, count, bufLen, maxPacketSize);
      if s.poll.Pending? {
        var rest := RunRead(obs[1..], timeoutMs, s.count, bufLen, maxPacketSize);
        RunReadStep(obs, timeoutMs, count, bufLen, maxPacketSize);
        RunReadEnds(obs[1..], timeoutMs, s.count, bufLen, maxPacketSize);
        EndsStep(obs, timeoutMs, count, s.count, bufLen, maxPacketSize, rest,
                 RunRead(obs, timeoutMs, count, bufLen, maxPacketSize));
      } else {
        RunReadEndsAtFirst(obs, timeoutMs, count, bufLen, maxPacketSize);
      }
    }
  }

  /** A receive descriptor word after the hardware stored `n` received bytes
      in a descriptor programmed with address `addr` and length code `bits`. */
  function ReceivedWord(addr: u16, bits: u16, n: nat): (w: u32)
    requires bits % 1024 == 0 && n < 1024
    ensures ReceivedCount(w) == n
  {
    DescriptorWord(addr, bits + n)
  }

  /** A 200-byte read on a channel with 64-byte packets that receives 64, 64
      and 20 bytes returns 148, having re-armed after the two full packets
      and not after the short one. */
  lemma ThreePacketRead()
    ensures
      var bits := 1024 + 0x8000;
      var obs := [InObservation(true, 0, STAT_DISABLED, ReceivedWord(64, bits, 64)),
                  InObservation(true, 1, STAT_DISABLED, ReceivedWord(64, bits, 64)),
                  InObservation(true, 2, STAT_DISABLED, ReceivedWord(64, bits, 20))];
      RunRead(obs, None, 0, 200, 64) == ReadRun(Ready(Ok(148)), 148, 3, [64, 64, 20], 2, NoAction)
  {
    var bits := 1024 + 0x8000;
    var obs := [InObservation(true, 0, STAT_DISABLED, ReceivedWord(64, bits, 64)),
                InObservation(true, 1, STAT_DISABLED, ReceivedWord(64, bits, 64)),
                InObservation(true, 2, STAT_DISABLED, ReceivedWord(64, bits, 20))];
    var tail := [obs[2]];
    assert obs[1..][1..] == tail && obs[1..] == [obs[1], obs[2]];
    assert RunRead(tail, None, 128, 200, 64) == ReadRun(Ready(Ok(148)), 148, 1, [20], 0, NoAction);
    assert RunRead(obs[1..], None, 64, 200, 64) == ReadRun(Ready(Ok(148)), 148, 2, [64, 20], 1, NoAction);
  }

  /** The outcome of successive write polls: the final poll, how many ran and
      the last poll's action. */
  datatype WriteRun = WriteRun(poll: Poll<Result<()>>, polls: nat, lastAction: Action)

  /** The write step of one observation. */
  function WriteStepAt(o: OutObservation, timeoutMs: Option<nat>): WriteStep
  {
    WriteStepOf(o.connected, o.elapsedMs, timeoutMs, o.statTx)
  }

  /** Successive write polls, stopping at the first Ready: every poll before
      the last one was Pending, and a finished run reports the outcome and
      action of the step of its last observation. */
  function RunWrite(obs: seq<OutObservation>, timeoutMs: Option<nat>): (r: WriteRun)
    ensures r.polls <= |obs|
    ensures forall i :: 0 <= i < r.polls - 1 ==> WriteStepAt(obs[i], timeoutMs).poll.Pending?
    ensures r.poll.Ready? ==> 1 <= r.polls && WriteStepAt(obs[r.polls - 1], timeoutMs) == WriteStep(r.poll, r.lastAction)
    ensures r.poll.Pending? <==> forall i :: 0 <= i < |obs| ==> WriteStepAt(obs[i], timeoutMs).poll.Pending?
    ensures r.poll.Pending? ==> r.polls == |obs| && r.lastAction == NoAction
    ensures r.lastAction == DisableChannel ==> r.poll == Ready(Err(Disconnected)) || r.poll == Ready(Err(Timeout))
    decreases |obs|
  {
    if obs == [] then
      WriteRun(Pending, 0, NoAction)
    else
      var s := WriteStepAt(obs[0], timeoutMs);
      if s.poll.Ready? then
        WriteRun(s.poll, 1, s.action)
      else
        var rest := RunWrite(obs[1..], timeoutMs);
        assert forall i :: 1 <= i < |obs| ==> obs[i] == obs[1..][i - 1];
        WriteRun(rest.poll, rest.polls + 1, rest.lastAction)
  }

  /** A write poll that can only wait. */
  predicate OutWaiting(o: OutObservation, timeoutMs: Option<nat>)
  {
    o.connected && !TimedOut(o.elapsedMs, timeoutMs) && (o.statTx == STAT_NAK || o.statTx == STAT_VALID)
  }

  /** Whatever Nak/Valid polls came first, the first poll that sees the
      device gone ends the write with Disconnected and disables the channel. */
  lemma {:induction false} WriteDisconnectEnds(obs: seq<OutObservation>, timeoutMs: Option<nat>, k: nat)
    requires k < |obs|
    requires forall i :: 0 <= i < k ==> OutWaiting(obs[i], timeoutMs)
    requires !obs[k].connected
    ensures RunWrite(obs, timeoutMs) == WriteRun(Ready(Err(Disconnected)), k + 1, DisableChannel)
  {
    if k > 0 {
      WriteDisconnectEnds(obs[1..], timeoutMs, k - 1);
    }
  }

  /** A write whose status stays Nak while the device stays connected ends
      with Timeout at the first poll past the deadline, and that poll
      disables the channel. */
  lemma {:induction false} WriteNakTimesOut(obs: seq<OutObservation>, timeoutMs: nat, k: nat)
    requires k < |obs|
    requires forall i :: 0 <= i <= k ==> obs[i].connected && obs[i].statTx == STAT_NAK
    requires forall i :: 0 <= i < k ==> obs[i].elapsedMs <= timeoutMs
    requires obs[k].elapsedMs > timeoutMs
    ensures RunWrite(obs, Some(timeoutMs)) == WriteRun(Ready(Err(Timeout)), k + 1, DisableChannel)
  {
    if k > 0 {
      WriteNakTimesOut(obs[1..], timeoutMs, k - 1);
    }
  }
}
