/** The root hub port table: which device sits in which port, and detaching it. */
module Ports {

  const USB_SPEED_SUPER := 5

  class Device {
    const speed: int
    var port: nat        // 1-based, zero if it has none
    var unplugged: bool
    var refs: nat        // references that slots of the table hold
    var detached: nat    // how often the body of detach has run

    constructor (speed: int)
      ensures port == 0 && !unplugged && refs == 0 && detached == 0 && this.speed == speed
    {
      this.speed := speed;
      port, unplugged, refs, detached := 0, false, 0, 0;
    }
  }

  class Vhci {
    const usb2Ports: nat
    const devicesCnt: nat
    var devices: seq<Device?>  // one slot a port
    ghost var known: set<Device>

    constructor (usb2Ports: nat, devicesCnt: nat)
      requires usb2Ports <= devicesCnt
      ensures Valid() && known == {} && this.usb2Ports == usb2Ports && this.devicesCnt == devicesCnt
      ensures forall i | 0 <= i < devicesCnt :: devices[i] == null
    {
      this.usb2Ports, this.devicesCnt := usb2Ports, devicesCnt;
      devices := seq(devicesCnt, _ => null);
      known := {};
    }

    /** get_port_range */
    function Begin(speed: int): (b: nat)
    {
      if speed < USB_SPEED_SUPER then 0 else usb2Ports
    }

    function End(speed: int): nat
    {
      if speed < USB_SPEED_SUPER then usb2Ports else devicesCnt
    }

    /** The slots for devices of a speed: up to high speed (below 5) the first ones, then those for SuperSpeed. */
    predicate SlotFor(speed: int, i: int) {
      if speed < 5 then 0 <= i < usb2Ports else usb2Ports <= i < devicesCnt
    }

    /** What the table says about one device. */
    ghost predicate Consistent(d: Device)
      reads this`devices, d
    {
      && |devices| == devicesCnt && d.port <= devicesCnt
      && (d.port != 0 ==> devices[d.port - 1] == d && Begin(d.speed) < d.port <= End(d.speed))
      && d.refs == (if d.port != 0 then 1 else 0)
    }

    /** Slots and ports are inverse to each other, each device is in its speed's range, and a slot holds
        one reference. */
    ghost predicate Table()
      reads this, known
    {
      && usb2Ports <= devicesCnt == |devices|
      && (forall d | d in known :: Consistent(d))
      && forall i | 0 <= i < devicesCnt && devices[i] != null :: devices[i] in known && devices[i].port == i + 1
    }

    /** Between calls a device was detached once if it is unplugged, never otherwise, and has no port then. */
    ghost predicate Valid()
      reads this, known
    {
      Table() && forall d | d in known ::
        d.detached == (if d.unplugged then 1 else 0) && (d.unplugged ==> d.port == 0)
    }

    method Add(d: Device)
      requires Valid() && d !in known && d.port == 0 && !d.unplugged && d.refs == 0 && d.detached == 0
      modifies this`known
      ensures Valid() && known == old(known) + {d} && devices == old(devices)
    {
      known := known + {d};
    }

    /** claim_roothub_port: the lowest free port of the range, zero if there is none. */
    method ClaimRoothubPort(d: Device) returns (port: nat)
      requires Valid() && d in known && d.port == 0 && !d.unplugged
      modifies this`devices, d`port, d`refs
      ensures Valid() && d.port == port
      ensures port == 0 <==> forall i | Begin(d.speed) <= i < End(d.speed) :: old(devices)[i] != null
      ensures port == 0 ==> devices == old(devices)
      ensures port != 0 ==>
                && Begin(d.speed) < port <= End(d.speed) && old(devices)[port - 1] == null
                && devices == old(devices)[port - 1 := d]
                && forall i | Begin(d.speed) <= i < port - 1 :: old(devices)[i] != null
      ensures |old(devices)| == devicesCnt && usb2Ports <= devicesCnt
      ensures port == 0 <==> forall i | SlotFor(d.speed, i) :: old(devices)[i] != null
      ensures port != 0 ==>
                SlotFor(d.speed, port - 1) && forall i | SlotFor(d.speed, i) && i < port - 1 :: old(devices)[i] != null
    {
      port := 0;
      for i := Begin(d.speed) to End(d.speed)
        invariant forall j | Begin(d.speed) <= j < i :: devices[j] != null
        invariant devices == old(devices) && Valid() && d.port == 0 && d.refs == 0
      {
        if devices[i] == null {
          d.refs := d.refs + 1;
          devices := devices[i := d];
          d.port := i + 1;
          return i + 1;
        }
      }
    }

    /** reclaim_roothub_port */
    method ReclaimRoothubPort(d: Device) returns (port: nat)
      requires Table() && d in known
      modifies this`devices, d`port, d`refs
      ensures Table() && d.port == 0 && port == old(d.port)
      ensures devices == if port == 0 then old(devices) else old(devices)[port - 1 := null]
    {
      port := d.port;
      if port != 0 {
        devices := devices[port - 1 := null];
        d.port := 0;
        d.refs := d.refs - 1;
      }
    }

    /** device::detach: the first call does the work. */
    method Detach(d: Device) returns (first: bool)
      requires Valid() && d in known
      modifies this`devices, d`port, d`refs, d`unplugged, d`detached
      ensures Valid() && d.unplugged && d.port == 0 && d.detached == 1 && first == !old(d.unplugged)
      ensures devices == if old(d.port) == 0 then old(devices) else old(devices)[old(d.port) - 1 := null]
    {
      hide Begin, End, SlotFor;
      if d.unplugged {
        return false;
      }
      d.unplugged := true;
      assert Table();
      var _ := ReclaimRoothubPort(d);
      assert Table();
      hide Consistent;
      d.detached := d.detached + 1;
      assert forall o | o in known && o != d :: o.detached == old(o.detached) && o.unplugged == old(o.unplugged);
      return true;
    }

    /** plugin and what plugin_hardware does when it fails; plugged: the framework took the device. */
    method Plugin(d: Device, plugged: bool, receiving: bool) returns (port: nat)
      requires Valid() && d in known && d.port == 0 && !d.unplugged
      modifies this`devices, d`port, d`refs, d`unplugged, d`detached
      ensures Valid()
      ensures port != 0 ==>
                && !d.unplugged && d.port == port <= devicesCnt == |old(devices)|
                && old(devices)[port - 1] == null && devices == old(devices)[port - 1 := d]
      ensures port == 0 ==> d.unplugged && devices == old(devices)
      ensures |old(devices)| == devicesCnt && usb2Ports <= devicesCnt
      ensures port != 0 <==> plugged && receiving && exists i :: SlotFor(d.speed, i) && old(devices)[i] == null
      ensures port != 0 ==>
                SlotFor(d.speed, port - 1) && forall i | SlotFor(d.speed, i) && i < port - 1 :: old(devices)[i] != null
    {
      port := ClaimRoothubPort(d);
      if port == 0 || !plugged || !receiving {
        ghost var claimed := devices;
        var _ := Detach(d);
        assert port != 0 ==> claimed[port - 1 := null] == old(devices);
        port := 0;
      }
    }

    /** detach_all_devices: every slot is empty afterwards, and every device it held has been detached once. */
    method DetachAllDevices()
      requires Valid()
      modifies this`devices, known
      ensures Valid() && known == old(known)
      ensures forall i | 0 <= i < devicesCnt :: devices[i] == null
      ensures forall d | d in known ::
                d.unplugged == (old(d.unplugged) || old(d.port) != 0) && d.detached == if d.unplugged then 1 else 0
    {
      for i := 0 to devicesCnt
        invariant Valid() && known == old(known)
        invariant forall j | 0 <= j < i :: devices[j] == null
        invariant forall j | i <= j < devicesCnt :: devices[j] == old(devices)[j]
        invariant forall d | d in known ::
            if 0 < old(d.port) <= i then d.unplugged && d.port == 0
            else d.unplugged == old(d.unplugged) && d.port == old(d.port)
      {
        if devices[i] != null {
          var _ := Detach(devices[i]);
        }
      }
    }
  }
}
