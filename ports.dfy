/**
 * The COM-port role assignment in `main`: walk the enumerated ports in sorted
 * order and put each one whose description starts with "USB Serial Port"
 * into the next of three slots (PSoC, RN2483 RX, RN2483 TX).
 */
module Ports {

  /** One entry of the port enumeration, already in sorted order. */
  datatype PortInfo = PortInfo(port: string, desc: string, hwid: string)

  /** The outcome of the assignment. */
  datatype Assignment =
    | Assigned(psoc: string, rx: string, tx: string)
    /** Some slot is still '': the operator is asked to connect the missing devices. */
    | MissingDevices
    /** A fourth match indexes `com_ports[3]`, which raises `IndexError`. */
    | TooManyDevices

  const UsbPrefix: string := "USB Serial Port"
  const SlotCount: nat := 3

  /** `desc[:15] == "USB Serial Port"`: the slice is shorter than 15 for a short description. */
  predicate Matches(desc: string) {
    desc[..if |desc| < |UsbPrefix| then |desc| else |UsbPrefix|] == UsbPrefix
  }

  /** A description matches exactly when it starts with the 15-character prefix. */
  lemma MatchesIffPrefix(desc: string)
    ensures Matches(desc) <==> |desc| >= 15 && UsbPrefix <= desc
  {
    assert |UsbPrefix| == 15;
  }

  /** The names of the matching ports, in enumeration order. */
  function MatchingPorts(ports: seq<PortInfo>): seq<string> {
    if ports == [] then []
    else
      var last := ports[|ports| - 1];
      MatchingPorts(ports[..|ports| - 1]) + (if Matches(last.desc) then [last.port] else [])
  }

  lemma {:induction false} MatchingPortsAppend(a: seq<PortInfo>, b: seq<PortInfo>)
    ensures MatchingPorts(a + b) == MatchingPorts(a) + MatchingPorts(b)
  {
    if b == [] {
      assert a + b == a;
    } else {
      assert (a + b)[..|a + b| - 1] == a + b[..|b| - 1];
      MatchingPortsAppend(a, b[..|b| - 1]);
    }
  }

  /** A port whose description does not match never takes a slot, wherever it is enumerated. */
  lemma NonMatchingIgnored(a: seq<PortInfo>, p: PortInfo, b: seq<PortInfo>)
    requires !Matches(p.desc)
    ensures MatchingPorts(a + [p] + b) == MatchingPorts(a + b)
  {
    MatchingPortsAppend(a + [p], b);
    MatchingPortsAppend(a, [p]);
    MatchingPortsAppend(a, b);
    assert [p][..0] == [];
  }

  /** Every name taken is the name of an enumerated port whose description matches. */
  lemma {:induction false} MatchingPortsFromMatches(ports: seq<PortInfo>, name: string)
    requires name in MatchingPorts(ports)
    ensures exists j :: 0 <= j < |ports| && ports[j].port == name && Matches(ports[j].desc)
  {
    var init := ports[..|ports| - 1];
    var last := ports[|ports| - 1];
    if name in MatchingPorts(init) {
      MatchingPortsFromMatches(init, name);
      var j :| 0 <= j < |init| && init[j].port == name && Matches(init[j].desc);
      assert ports[j] == init[j];
    } else {
      assert ports[|ports| - 1].port == name && Matches(ports[|ports| - 1].desc);
    }
  }

  /** Every enumerated port whose description matches takes its turn for a slot. */
  lemma MatchesAreTaken(ports: seq<PortInfo>, j: nat)
    requires j < |ports| && Matches(ports[j].desc)
    ensures ports[j].port in MatchingPorts(ports)
  {
    var p := ports[j];
    assert ports == ports[..j] + [p] + ports[j + 1..];
    MatchingPortsAppend(ports[..j] + [p], ports[j + 1..]);
    MatchingPortsAppend(ports[..j], [p]);
    assert [p][..0] == [];
    assert MatchingPorts([p]) == [p.port];
  }

  /**
   * The loop of `main`: fill the three slots in enumeration order, then
   * reject the assignment if any slot stayed ''. It succeeds exactly when
   * there are three matching ports, none named '', and then the slots hold
   * them in order.
   */
  method AssignPorts(ports: seq<PortInfo>) returns (a: Assignment)
    ensures a.TooManyDevices? <==> |MatchingPorts(ports)| > SlotCount
    ensures a.Assigned? <==> |MatchingPorts(ports)| == SlotCount && "" !in MatchingPorts(ports)
    ensures a.Assigned? ==> MatchingPorts(ports) == [a.psoc, a.rx, a.tx]
  {
    var comPorts := new string[SlotCount](_ => "");
    var i := 0;
    var j := 0;
    while j < |ports|
      invariant j <= |ports|
      invariant i == |MatchingPorts(ports[..j])| <= SlotCount
      invariant comPorts[..i] == MatchingPorts(ports[..j])
      invariant forall k :: i <= k < SlotCount ==> comPorts[k] == ""
    {
      var p := ports[j];
      assert ports[..j + 1][..j] == ports[..j];
      if Matches(p.desc) {
        if i == SlotCount {
          MatchingPortsAppend(ports[..j + 1], ports[j + 1..]);
          assert ports[..j + 1] + ports[j + 1..] == ports;
          return TooManyDevices;
        }
        comPorts[i] := p.port;
        i := i + 1;
      }
      j := j + 1;
    }
    assert ports[..j] == ports;
    assert i < SlotCount ==> comPorts[i] == "";
    if exists k :: 0 <= k < SlotCount && comPorts[k] == "" {
      var k :| 0 <= k < SlotCount && comPorts[k] == "";
      if k < i {
        assert comPorts[..i][k] == "";
      }
      a := MissingDevices;
    } else {
      assert comPorts[..i] == comPorts[..];
      a := Assigned(comPorts[0], comPorts[1], comPorts[2]);
    }
  }
}
