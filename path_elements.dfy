/**
 * Elements of the path tree: an alias, which names the path it stands for,
 * and a device, which names a VRPN device on a server.
 */
module PathElements {
  import opened Wrappers

  /** `AliasElement`: a path element that stands for another path, its source. */
  class AliasElement {
    var source: string

    constructor (source: string)
      ensures this.source == source
    {
      this.source := source;
    }

    /** `setSource`: replaces the source, whatever it is; nothing is validated. */
    method SetSource(source: string)
      modifies this
      ensures this.source == source
    {
      this.source := source;
    }

    function GetSource(): (s: string)
      reads this
      ensures s == source
    {
      source
    }
  }

  /** `DeviceElement`: a VRPN device, by device name and server. */
  datatype DeviceElement = DeviceElement(deviceName: string, server: string)
  {
    /** `getDeviceName`: the device name given at construction. */
    function GetDeviceName(): (n: string)
      ensures n == deviceName
    {
      deviceName
    }

    /** `getServer`: the server given at construction. */
    function GetServer(): (s: string)
      ensures s == server
    {
      server
    }

    /** `getFullDeviceName`: `name@server`, the form VRPN addresses a device by. */
    function GetFullDeviceName(): (full: string)
      ensures |full| == |deviceName| + |server| + 1
      ensures full[..|deviceName|] == deviceName
      ensures full[|deviceName|] == '@'
      ensures full[|deviceName| + 1..] == server
    {
      GetDeviceName() + "@" + GetServer()
    }
  }

  /** `createVRPNDeviceElement`: a device element for the named device on the server. */
  function CreateVRPNDeviceElement(deviceName: string, server: string): (d: DeviceElement)
    ensures d.GetDeviceName() == deviceName && d.GetServer() == server
  {
    DeviceElement(deviceName, server)
  }

  /** The position of the first `c` in `s`, or `|s|` when there is none. */
  function IndexOf(s: string, c: char): (i: nat)
    ensures i <= |s|
    ensures i < |s| ==> s[i] == c
    ensures forall j :: 0 <= j < i ==> s[j] != c
  {
    if s == [] then 0
    else if s[0] == c then 0
    else 1 + IndexOf(s[1..], c)
  }

  /** Splits `s` at its first `c` into what comes before and after it. */
  function SplitAtFirst(s: string, c: char): Option<(string, string)> {
    var i := IndexOf(s, c);
    if i == |s| then None else Some((s[..i], s[i + 1..]))
  }

  /**
   * A device whose name holds no `'@'` can be read back from its full name:
   * the first `'@'` is the one `getFullDeviceName` put there.
   */
  lemma FullNameSplits(d: DeviceElement)
    requires '@' !in d.deviceName
    ensures SplitAtFirst(d.GetFullDeviceName(), '@') == Some((d.deviceName, d.server))
  {
    var full := d.GetFullDeviceName();
    var n := |d.deviceName|;
    forall j | 0 <= j < n
      ensures full[j] != '@'
    {
      assert full[j] == full[..n][j] == d.deviceName[j];
    }
    IndexOfFirst(full, '@', n);
  }

  /** When `s[i]` is the first `c`, `IndexOf` finds it there. */
  lemma {:induction false} IndexOfFirst(s: string, c: char, i: nat)
    requires i < |s| && s[i] == c
    requires forall j :: 0 <= j < i ==> s[j] != c
    ensures IndexOf(s, c) == i
  {
    if i > 0 {
      assert s[0] != c;
      forall j | 0 <= j < i - 1
        ensures s[1..][j] != c
      {
        assert s[1..][j] == s[j + 1];
      }
      IndexOfFirst(s[1..], c, i - 1);
    }
  }

  /**
   * Without that condition the full name is ambiguous: two different devices
   * can share one.
   */
  lemma FullNameAmbiguous()
    ensures DeviceElement("a@b", "c") != DeviceElement("a", "b@c")
    ensures DeviceElement("a@b", "c").GetFullDeviceName() == DeviceElement("a", "b@c").GetFullDeviceName()
  {
  }
}
