/**
 * `OSVR_ClientContextObject`: an application's connection to the system. It
 * keeps the interface objects it has handed out, a string-valued parameter
 * map, and a registry of objects whose lifetime it controls.
 */
module ClientContext {
  import opened ClientInterface
  import opened KeyedOwnership

  /** `getStringParameter` over the parameter map: the value set for `path`, or empty when none was. */
  function ParameterLookup(params: map<string, string>, path: string): (value: string)
    ensures path in params ==> value == params[path]
    ensures path !in params ==> value == ""
  {
    if path in params then params[path] else ""
  }

  /** `s` without its first occurrence of `x`, as `std::find` then `erase` leave it. */
  function Without<T(==)>(s: seq<T>, x: T): seq<T> {
    if s == [] then []
    else if s[0] == x then s[1..]
    else [s[0]] + Without(s[1..], x)
  }

  /** No element occurs twice. */
  predicate Distinct<T(==)>(s: seq<T>) {
    forall i, j :: 0 <= i < j < |s| ==> s[i] != s[j]
  }

  /**
   * Removing a present element of a list without repeats drops exactly that
   * element and keeps the order of the rest.
   */
  lemma {:induction false} WithoutRemoves<T>(s: seq<T>, x: T)
    requires Distinct(s) && x in s
    ensures |Without(s, x)| == |s| - 1
    ensures x !in Without(s, x)
    ensures forall y :: y in Without(s, x) <==> y in s && y != x
    ensures Distinct(Without(s, x))
  {
    if s[0] != x {
      assert Distinct(s[1..]) by {
        forall i, j | 0 <= i < j < |s[1..]|
          ensures s[1..][i] != s[1..][j]
        {
          assert s[1..][i] == s[i + 1] && s[1..][j] == s[j + 1];
        }
      }
      assert x in s[1..] by {
        var k :| 0 <= k < |s| && s[k] == x;
        assert s[1..][k - 1] == x;
      }
      WithoutRemoves(s[1..], x);
      var w := Without(s[1..], x);
      assert s[0] !in w by {
        forall j | 0 <= j < |s[1..]|
          ensures s[0] != s[1..][j]
        {
          assert s[1..][j] == s[j + 1];
        }
      }
      forall i, j | 0 <= i < j < |[s[0]] + w|
        ensures ([s[0]] + w)[i] != ([s[0]] + w)[j]
      {
        assert ([s[0]] + w)[j] == w[j - 1];
        if i > 0 {
          assert ([s[0]] + w)[i] == w[i - 1];
        }
      }
    } else {
      forall j | 0 <= j < |s[1..]|
        ensures s[1..][j] != x
      {
        assert s[1..][j] == s[j + 1];
      }
    }
  }

  /** When `s[i]` is the first `x`, dropping it is cutting `s` at `i`. */
  lemma {:induction false} WithoutAt<T>(s: seq<T>, x: T, i: nat)
    requires i < |s| && s[i] == x
    requires forall k :: 0 <= k < i ==> s[k] != x
    ensures Without(s, x) == s[..i] + s[i + 1..]
  {
    if i > 0 {
      forall k | 0 <= k < i - 1
        ensures s[1..][k] != x
      {
        assert s[1..][k] == s[k + 1];
      }
      WithoutAt(s[1..], x, i - 1);
      assert s[1..][..i - 1] == s[1..i];
      assert s[1..][i..] == s[i + 1..];
      assert [s[0]] + s[1..i] == s[..i];
    }
  }

  class ClientContextObject {
    /** `m_appId` */
    const appId: string
    /** `m_interfaces`: the interfaces this context retains, oldest first. */
    var interfaces: seq<ClientInterfaceObject>
    /** `m_params` */
    var params: map<string, string>
    /** `m_ownedObjects` */
    const ownedObjects: KeyedOwnershipContainer

    /** The context holds each interface at most once. */
    ghost predicate Valid()
      reads this
    {
      Distinct(interfaces)
    }

    constructor (appId: string)
      ensures Valid()
      ensures this.appId == appId && interfaces == [] && params == map[]
      ensures fresh(ownedObjects) && ownedObjects.container == map[]
    {
      this.appId := appId;
      interfaces := [];
      params := map[];
      ownedObjects := new KeyedOwnershipContainer();
    }

    function GetAppId(): (id: string)
      ensures id == appId
    {
      appId
    }

    /** `getInterface`: a new interface for `path`, which the context keeps. */
    method GetInterface(path: string) returns (iface: ClientInterfaceObject)
      requires Valid()
      modifies this
      ensures Valid()
      ensures fresh(iface) && iface.path == path && iface.state == map[] && iface.callbacks == []
      ensures interfaces == old(interfaces) + [iface]
      ensures params == old(params)
    {
      iface := new ClientInterfaceObject(path);
      interfaces := interfaces + [iface];
    }

    /**
     * `releaseInterface`: when `iface` is one of the retained interfaces, the
     * context stops retaining it and hands it back; for null or an interface
     * it does not hold, it returns null and changes nothing.
     */
    method ReleaseInterface(iface: ClientInterfaceObject?) returns (released: ClientInterfaceObject?)
      requires Valid()
      modifies this
      ensures Valid()
      ensures iface == null || iface !in old(interfaces) ==> released == null && interfaces == old(interfaces)
      ensures iface != null && iface in old(interfaces) ==> released == iface && interfaces == Without(old(interfaces), iface)
      ensures params == old(params)
    {
      if iface == null {
        return null;
      }
      var i := 0;
      while i < |interfaces| && interfaces[i] != iface
        invariant 0 <= i <= |interfaces|
        invariant forall k :: 0 <= k < i ==> interfaces[k] != iface
      {
        i := i + 1;
      }
      if i == |interfaces| {
        return null;
      }
      WithoutRemoves(interfaces, iface);
      WithoutAt(interfaces, iface, i);
      interfaces := interfaces[..i] + interfaces[i + 1..];
      released := iface;
    }

    function GetInterfaces(): (list: seq<ClientInterfaceObject>)
      reads this
      ensures list == interfaces
    {
      interfaces
    }

    /** `setParameter`: sets or overwrites the value of `path`. */
    method SetParameter(path: string, value: string)
      modifies this
      ensures params == old(params)[path := value]
      ensures interfaces == old(interfaces)
    {
      params := params[path := value];
    }

    /** `getStringParameter` */
    function GetStringParameter(path: string): (value: string)
      reads this
      ensures value == ParameterLookup(params, path)
    {
      ParameterLookup(params, path)
    }

    /** `acquireObject`: hands the object to the owned-object registry; returns its key. */
    method AcquireObject(obj: SmartPtr) returns (key: Key)
      modifies ownedObjects
      ensures key == obj.address
      ensures ownedObjects.container == old(ownedObjects.container)[key := obj]
    {
      key := ownedObjects.Acquire(obj);
    }

    /** `releaseObject`: true exactly when the registry held the object, which it no longer does. */
    method ReleaseObject(key: Key) returns (found: bool)
      modifies ownedObjects
      ensures found <==> key in old(ownedObjects.container)
      ensures ownedObjects.container == old(ownedObjects.container) - {key}
    {
      found := ownedObjects.Release(key);
    }
  }

  /** A parameter read back after it is set is the value set; every other parameter is as it was. */
  lemma SetThenGet(params: map<string, string>, path: string, value: string, other: string)
    ensures ParameterLookup(params[path := value], path) == value
    ensures other != path ==> ParameterLookup(params[path := value], other) == ParameterLookup(params, other)
  {
  }

  /** The key `acquireObject` returns releases the object once, and only once. */
  method AcquireThenRelease(ctx: ClientContextObject, obj: SmartPtr) returns (first: bool, second: bool)
    modifies ctx.ownedObjects
    ensures first && !second
  {
    var key := ctx.AcquireObject(obj);
    first := ctx.ReleaseObject(key);
    second := ctx.ReleaseObject(key);
  }
}
