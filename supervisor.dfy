/**
 * The rest of `main`: assign the ports, give up if the assignment fails,
 * otherwise bind each role's serial line to its assigned port and start one
 * worker per stream. Each worker owns its log, so what each log ends up
 * holding depends on that stream's port alone.
 */
module Supervisor {
  import opened Records
  import opened Ports
  import opened Ingest

  const RxName: string := "RN2483 RX Readings"
  const TxName: string := "RN2483 TX Readings"

  /** What the device on one COM port does once a worker reads it: whether it opens, and what it sends. */
  datatype Device = Device(opens: bool, events: seq<Event>)

  /** The log a worker on `stream` leaves behind, from the file's `existing` records and the device it reads. */
  function SessionLog(stream: Stream, existing: seq<Record>, d: Device): seq<Record> {
    existing + (if d.opens then Logged(stream, d.events) else [])
  }

  /**
   * Assign the ports; on success read the PSoC stream from slot 0, RN2483 RX
   * from slot 1 and RN2483 TX from slot 2, and return the three logs in that
   * order. `device` says what the device on each port name does. The threads
   * are run one after the other: they share nothing, so the order does not
   * matter. When the assignment fails no worker starts and every log is left
   * as it was.
   */
  method Launch(ports: seq<PortInfo>, device: string -> Device,
                psocLog: seq<Record>, rxLog: seq<Record>, txLog: seq<Record>)
    returns (a: Assignment, logs: seq<seq<Record>>)
    ensures a.Assigned? <==> |MatchingPorts(ports)| == SlotCount && "" !in MatchingPorts(ports)
    ensures a.Assigned? ==> MatchingPorts(ports) == [a.psoc, a.rx, a.tx]
    ensures a.Assigned? ==> logs == [SessionLog(Psoc, psocLog, device(a.psoc)),
                                     SessionLog(Serial(RxName), rxLog, device(a.rx)),
                                     SessionLog(Serial(TxName), txLog, device(a.tx))]
    ensures !a.Assigned? ==> logs == [psocLog, rxLog, txLog]
  {
    a := AssignPorts(ports);
    if !a.Assigned? {
      return a, [psocLog, rxLog, txLog];
    }
    var psoc, rx, tx := device(a.psoc), device(a.rx), device(a.tx);
    var w1 := new Worker(Psoc, psocLog);
    var w2 := new Worker(Serial(RxName), rxLog);
    var w3 := new Worker(Serial(TxName), txLog);
    w1.Task(psoc.opens, psoc.events);
    w2.Task(rx.opens, rx.events);
    w3.Task(tx.opens, tx.events);
    logs := [w1.sink, w2.sink, w3.sink];
  }
}
