/**
 * `KeyedOwnershipContainer`: holds smart pointers by value, keyed by the raw
 * address of the object each one points to, so that the holder can give one
 * up again by naming that address.
 *
 * The `boost::any` that erases the smart pointer's type is modelled as a
 * `SmartPtr` value that records the address it points to and the type it was
 * acquired as.
 */
module KeyedOwnership {

  /** A raw object address, the container's `void *` key. */
  type Key = nat

  /** A smart pointer handed over for safekeeping: `ptr.get()` and the type it holds. */
  datatype SmartPtr = SmartPtr(address: Key, typeName: string)

  class KeyedOwnershipContainer {
    /** `m_container`: `std::map<void *, boost::any>` */
    var container: map<Key, SmartPtr>

    constructor ()
      ensures container == map[]
    {
      container := map[];
    }

    /** `acquire`: stores `ptr` under the address it points to and returns that address. */
    method Acquire(ptr: SmartPtr) returns (key: Key)
      modifies this
      ensures key == ptr.address
      ensures container == old(container)[key := ptr]
    {
      key := MInsert(ptr.address, ptr);
    }

    /**
     * `m_insert`: `m_container[key] = ptr`, so a key already present is
     * overwritten; returns the key.
     */
    method MInsert(key: Key, ptr: SmartPtr) returns (k: Key)
      modifies this
      ensures k == key
      ensures container == old(container)[key := ptr]
    {
      container := container[key := ptr];
      k := key;
    }

    /**
     * `release`: erases the entry for `key`, if any, and reports whether one
     * was erased. Every other entry is left as it was.
     */
    method Release(key: Key) returns (found: bool)
      modifies this
      ensures found <==> key in old(container)
      ensures container == old(container) - {key}
      ensures forall k :: k in container <==> k in old(container) && k != key
      ensures forall k :: k in container ==> container[k] == old(container)[k]
    {
      found := key in container;
      container := container - {key};
    }
  }

  /** Releasing the same key twice finds it the first time only. */
  method ReleaseTwice(c: KeyedOwnershipContainer, ptr: SmartPtr) returns (first: bool, second: bool)
    modifies c
    ensures first && !second
    ensures c.container == old(c.container) - {ptr.address}
  {
    var key := c.Acquire(ptr);
    first := c.Release(key);
    second := c.Release(key);
  }
}
