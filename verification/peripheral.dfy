/**
 * The nRF52 RADIO peripheral as the driver sees it: a file of 32-bit
 * registers plus the task triggers it writes to. Every spin-wait the driver
 * does on an EVENTS_* register is taken as already complete, so a task
 * method returns in the state the hardware reaches once the awaited event
 * has fired.
 */
module Peripheral {

  /** Direction the transceiver is enabled in. */
  datatype Direction = Disabled | Rx | Tx

  /** The task registers the driver triggers (TASKS_DISABLE, TASKS_RXEN, TASKS_TXEN, TASKS_START). */
  datatype Task = TaskDisable | TaskRxEn | TaskTxEn | TaskStart

  /** One packet put on the air: the logical address it was sent on and the bytes at PACKETPTR. */
  datatype Transmission = Transmission(txAddress: bv32, packet: seq<bv8>)

  /** Snapshot of every register other than the direction and the two logs. */
  datatype Registers = Registers(
    base0: bv32, base1: bv32, prefix0: bv32, prefix1: bv32,
    rxAddresses: bv32, txAddress: bv32, frequency: bv32,
    eventsCrcOk: bool, rxMatch: bv32)

  class Radio {
    var base0: bv32
    var base1: bv32
    var prefix0: bv32
    var prefix1: bv32
    var rxAddresses: bv32
    var txAddress: bv32
    var frequency: bv32
    /** EVENTS_CRCOK: set by the hardware when a packet arrived with a good CRC. */
    var eventsCrcOk: bool
    /** RXMATCH: logical address on which the last packet was received. */
    var rxMatch: bv32
    var direction: Direction
    /** Every task triggered so far, oldest first. */
    var tasks: seq<Task>
    /** Every packet transmitted so far, oldest first. */
    var sent: seq<Transmission>

    function Regs(): Registers
      reads this
    {
      Registers(base0, base1, prefix0, prefix1, rxAddresses, txAddress, frequency, eventsCrcOk, rxMatch)
    }

    /** What TASKS_START puts on the air in the current direction: one packet when enabled for transmit, nothing otherwise. */
    function Emitted(packet: seq<bv8>): seq<Transmission>
      reads this
    {
      if direction == Tx then [Transmission(txAddress, packet)] else []
    }

    /** The peripheral before the driver has written anything: all registers clear, transceiver disabled. */
    constructor PowerOn()
      ensures Regs() == Registers(0, 0, 0, 0, 0, 0, 0, false, 0)
      ensures direction == Disabled && tasks == [] && sent == []
    {
      base0, base1, prefix0, prefix1 := 0, 0, 0, 0;
      rxAddresses, txAddress, frequency := 0, 0, 0;
      eventsCrcOk, rxMatch := false, 0;
      direction, tasks, sent := Disabled, [], [];
    }

    /** TASKS_DISABLE, then wait for EVENTS_DISABLED. */
    method Disable()
      modifies this
      ensures direction == Disabled && tasks == old(tasks) + [TaskDisable]
      ensures Regs() == old(Regs()) && sent == old(sent)
    {
      direction := Disabled;
      tasks := tasks + [TaskDisable];
    }

    /** TASKS_RXEN, then wait for EVENTS_RXREADY. */
    method EnableRx()
      modifies this
      ensures direction == Rx && tasks == old(tasks) + [TaskRxEn]
      ensures Regs() == old(Regs()) && sent == old(sent)
    {
      direction := Rx;
      tasks := tasks + [TaskRxEn];
    }

    /** TASKS_TXEN, then wait for EVENTS_TXREADY (or EVENTS_READY). */
    method EnableTx()
      modifies this
      ensures direction == Tx && tasks == old(tasks) + [TaskTxEn]
      ensures Regs() == old(Regs()) && sent == old(sent)
    {
      direction := Tx;
      tasks := tasks + [TaskTxEn];
    }

    /**
     * TASKS_START with `packet` at PACKETPTR: when enabled for transmit the
     * packet goes out on TXADDRESS (the driver then waits for EVENTS_END);
     * when enabled for receive it arms reception.
     */
    method Start(packet: seq<bv8>)
      modifies this
      ensures direction == old(direction) && tasks == old(tasks) + [TaskStart]
      ensures Regs() == old(Regs()) && sent == old(sent) + old(Emitted(packet))
    {
      sent := sent + Emitted(packet);
      tasks := tasks + [TaskStart];
    }
  }
}
