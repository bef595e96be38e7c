/** The USB peripheral as the driver sees it: the interrupt status register,
    the eight channel-control registers and packet memory. Register writes go
    through `WriteEpr`/`WriteIstr`, which apply the hardware's write semantics;
    `OnInterrupt` is the interrupt handler. */
module Peripheral {
  import opened Types
  import opened Registers

  /** Which waiters one interrupt wakes. */
  datatype Wakes = Wakes(bus: bool, channelIn: bool, channelOut: bool, index: nat)

  /** A channel register after one interrupt: a completed transaction clears
      its complete and error flags; the error branch's write changes nothing. */
  function EprAfterInterrupt(e: Epr, ctr: bool): Epr
  {
    if ctr then e.(ctrRx := false, ctrTx := false, errRx := false, errTx := false) else e
  }

  /** The pending interrupt flags after one interrupt. */
  function PendingAfterInterrupt(pending: set<IstrFlag>, ctr: bool): set<IstrFlag>
  {
    var reset := Reset in pending;
    var err := Error in pending;
    if !reset && !ctr && !err then {}
    else pending - (if reset then {Reset} else {}) - (if err then {Error} else {})
  }

  class Usb {
    var istr: Istr
    const epr: array<Epr>
    const ram: array<u32>

    ghost predicate Valid()
    {
      epr.Length == EP_COUNT && ram.Length == RAM_WORDS
    }

    constructor (istr: Istr, eprs: seq<Epr>, words: seq<u32>)
      requires |eprs| == EP_COUNT && |words| == RAM_WORDS
      ensures Valid() && this.istr == istr && epr[..] == eprs && ram[..] == words
      ensures fresh(epr) && fresh(ram)
    {
      this.istr := istr;
      epr := new Epr[EP_COUNT](i requires 0 <= i < EP_COUNT => eprs[i]);
      ram := new u32[RAM_WORDS](i requires 0 <= i < RAM_WORDS => words[i]);
    }

    /** A write of `w` to channel register `index`. */
    method WriteEpr(index: nat, w: Epr)
      requires Valid() && index < EP_COUNT
      modifies epr
      ensures epr[..] == old(epr[..])[index := ApplyWrite(old(epr[index]), w)]
    {
      epr[index] := ApplyWrite(epr[index], w);
    }

    /** A write to the interrupt status register, `w` being the flags written 1. */
    method WriteIstr(w: set<IstrFlag>)
      modifies this`istr
      ensures istr == ApplyIstrWrite(old(istr), w)
    {
      istr := ApplyIstrWrite(istr, w);
    }

    /** `on_interrupt`: a bus reset/connect change clears its flag and wakes
        the bus waiter; a completed transaction clears exactly the complete
        and error flags that were set on its channel and wakes that channel's
        In and/or Out waiter; a transaction error clears its flag and writes
        the channel register with a value that leaves it as it is; an
        interrupt with none of these is acknowledged by writing 0. */
    method OnInterrupt() returns (wakes: Wakes)
      requires Valid() && istr.epId < EP_COUNT
      modifies this`istr, epr
      ensures Valid()
      ensures wakes.index == old(istr.epId)
      ensures wakes.bus == (Reset in old(istr.pending))
      ensures wakes.channelIn == (old(istr.ctr) && old(epr[istr.epId].ctrRx))
      ensures wakes.channelOut == (old(istr.ctr) && old(epr[istr.epId].ctrTx))
      ensures istr == old(istr).(pending := PendingAfterInterrupt(old(istr.pending), old(istr.ctr)))
      ensures epr[..] == old(epr[..])[old(istr.epId) :=
        EprAfterInterrupt(old(epr[istr.epId]), old(istr.ctr))]
    {
      var intCleared := false;
      var status := istr;
      var bus, channelIn, channelOut := false, false, false;

      if Reset in status.pending {
        WriteIstr(ClearOnlyValue(Reset));
        bus := true;
        intCleared := true;
      }

      if status.ctr {
        var index := status.epId;
        var e := epr[index];
        channelIn, channelOut := e.ctrRx, e.ctrTx;
        WriteEpr(index, CtrClearValue(e));
        intCleared := true;
      }

      if Error in status.pending {
        WriteIstr(AllFlags());
        WriteIstr(ClearOnlyValue(Error));
        var index := status.epId;
        var e := epr[index];
        WriteEpr(index, ErrWriteValue(e));
        intCleared := true;
      }

      if !intCleared {
        WriteIstr({});
      }

      AllFlagsComplete();
      wakes := Wakes(bus, channelIn, channelOut, status.epId);
    }
  }
}
