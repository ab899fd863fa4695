/** `IDevice`: the descriptor of the television the client talks to. */
module Devices {
  import opened Wrappers

  /** The caller owns the device; the client writes `pairingKey` back after
      a handshake. `macAddress` is carried but never read. */
  class Device {
    var hostName: Option<string>
    var ipAddress: Option<string>
    var macAddress: Option<string>
    var pairingKey: Option<string>

    constructor(hostName: Option<string>, ipAddress: Option<string>,
                macAddress: Option<string>, pairingKey: Option<string>)
      ensures this.hostName == hostName && this.ipAddress == ipAddress
      ensures this.macAddress == macAddress && this.pairingKey == pairingKey
    {
      this.hostName := hostName;
      this.ipAddress := ipAddress;
      this.macAddress := macAddress;
      this.pairingKey := pairingKey;
    }
  }

  /** The device `d` has the four properties it had before the call. */
  twostate predicate DeviceUnchanged(d: Device)
    reads d
  {
    && d.hostName == old(d.hostName) && d.ipAddress == old(d.ipAddress)
    && d.macAddress == old(d.macAddress) && d.pairingKey == old(d.pairingKey)
  }
}
