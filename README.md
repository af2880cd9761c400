# OSVR-Core: codec and bookkeeping, modelled in Dafny

This project models the core of OSVR-Core's data plane in Dafny and proves
properties of the model.

**The tag-dispatched binary codec.** It has two layers:

- The current traits (`SerializationTraits.h`) write each arithmetic value as
  follows:
  - first, zero padding up to a multiple of the value's alignment, measured
    from the buffer's current size;
  - then the value in network byte order.

  A string is its `uint32` length, encoded the same way, followed by its raw
  bytes. `spaceRequired` predicts exactly how many bytes a `buffer` call
  appends. Reading mirrors writing: padding is measured from the number of
  bytes already read.
- The older `DefaultSerializationTraits` (`Serialization.h`) states the padding
  formula itself. Its functors hand each value to its traits.

**The bookkeeping around the codec:**

- the keyed ownership container;
- the alias and device path elements;
- the client interface's per-report-type state cache and callback list;
- the client context's interface list, parameter map and owned-object registry;
- the VRPN-based connection's handler bookkeeping;
- plugin discovery over directory listings.

Model files, one module each:

| file | module | models |
|---|---|---|
| `wire.dfy` | `Wire` | Integer types, two's-complement bit patterns, big-endian bytes (`hton`/`ntoh`). |
| `buffers.dfy` | `Buffers` | The padding formula, the write buffer and the reader's cursor. |
| `serialization_traits.dfy` | `SerializationTraits` | The current codec: arithmetic and string traits, `serializeRaw`, `deserializeRaw` and `getBufferSpaceRequiredRaw`. |
| `serialization.dfy` | `Serialization` | `DefaultSerializationTraits` and the two functors. |
| `keyed_ownership.dfy` | `KeyedOwnership` | `KeyedOwnershipContainer`. |
| `path_elements.dfy` | `PathElements` | `AliasElement` and `DeviceElement`. |
| `client_interface.dfy` | `ClientInterface` | `OSVR_ClientInterfaceObject`. |
| `client_context.dfy` | `ClientContext` | `OSVR_ClientContextObject`. |
| `vrpn_connection.dfy` | `VrpnConnection` | `VrpnBasedConnection`. The VRPN connection is a log of the calls made on it. |
| `search_path.dfy` | `SearchPath` | `getAllFilesWithExt` and `findPlugin`. The filesystem is a map from each existing directory to its ordered entries. |
| `time_value.dfy`, `wrappers.dfy` | `TimeValues`, `Wrappers` | Shared value types. |

Classes model the objects whose fields the source updates:

- the write buffer and the reader;
- the functors;
- the ownership container;
- the alias element;
- the interface;
- the context;
- the connection.

Their methods are proved against specification functions. Those functions
carry the round-trip, ordering and membership lemmas.

Modelling choices worth knowing before reading the contracts:

- The reader's class, `Buffer.h`, is not part of this model, so how it
  behaves at the end of the data is an assumption. Every read reports
  failure instead of requiring that enough bytes remain.
  - `ReadBytes` and `SkipPadding` fail without moving the cursor.
  - An aligned read (`ReadAligned`, `DefaultUnbuffer`, and everything that
    reads through them) skips its padding first. When the value's bytes
    then do not remain, it fails with the cursor already past the padding.
- The string prefix stores the length truncated to 32 bits (`length_type len
  = val.length()`). The string's `spaceRequired` counts the full length.
- The message type of a general message handler is registered from the
  device name. `RegistrationAsWritten` models the code as written.
  `RegisterMessageHandler` uses the corrected registration, `Registration`.
  See Findings.

## Model

| member | source | states |
|---|---|---|
| `Wire.FromToBigEndian` | inc/osvr/Common/SerializationTraits.h:124-136 | Decoding the `width` big-endian bytes of a value that fits gives the value back. |
| `Wire.ToFromBigEndian` | inc/osvr/Common/SerializationTraits.h:124-136 | Encoding the number a byte string denotes, at the string's width, gives the same bytes. |
| `Wire.BitsRoundTrip` | inc/osvr/Common/SerializationTraits.h:124-136 | The two's-complement bit pattern of a value of a type converts back to the value, and the reverse holds for every pattern of the type's width. |
| `Wire.Hton` | inc/osvr/Common/SerializationTraits.h:126 | `hton(val)` gives exactly `sizeof(T)` bytes. |
| `Wire.Ntoh` | inc/osvr/Common/SerializationTraits.h:135 | `ntoh` of `sizeof(T)` bytes gives a value in the range of `T`. |
| `Wire.NtohHton` | inc/osvr/Common/SerializationTraits.h:126-135 | `ntoh(hton(v)) == v` for every value in range of its type. |
| `Wire.HtonNtoh` | inc/osvr/Common/SerializationTraits.h:126-135 | `hton(ntoh(bs)) == bs` for every `sizeof(T)`-byte string. |
| `Buffers.PaddingRequired` | inc/osvr/Common/Serialization.h:84-87 | The padding is less than the alignment and brings the length to a multiple of the alignment. |
| `Buffers.Leftover` | inc/osvr/Common/Serialization.h:85 | The leftover is `existing % alignment`, and it is less than the alignment. |
| `Buffers.PaddingZeroIffAligned` | inc/osvr/Common/Serialization.h:84-87 | The padding is 0 exactly when the length is already a multiple of the alignment. |
| `Buffers.PaddingIsMinimal` | inc/osvr/Common/Serialization.h:84-87 | No smaller amount of padding reaches a multiple of the alignment. Together with the two rows above, this pins the padding to `A - n % A` or 0. |
| `Buffers.PaddingIdempotent` | inc/osvr/Common/Serialization.h:84-87 | Padding a length that was just padded adds nothing: `paddingRequired(n + paddingRequired(n)) == 0`. |
| `Buffers.WriteBuffer.AppendPadding` | inc/osvr/Common/Serialization.h:94 | Appends exactly `n` zero bytes and keeps what was there. |
| `Buffers.WriteBuffer.Append` | inc/osvr/Common/Serialization.h:95 | Appends exactly the given bytes. |
| `Buffers.WriteBuffer.AppendAligned` | inc/osvr/Common/SerializationTraits.h:126 | Appends the padding for the current size, then the bytes. |
| `Buffers.WriteBuffer.Size` | inc/osvr/Common/Serialization.h:94 | The size is the number of bytes written so far. |
| `Buffers.BufferReader.ReadBytes` | inc/osvr/Common/SerializationTraits.h:185-186 | Succeeds exactly when `n` bytes remain. It then returns the next `n` bytes and advances by `n`; otherwise the cursor does not move. |
| `Buffers.BufferReader.SkipPadding` | inc/osvr/Common/Serialization.h:101 | Advances by `n` exactly when `n` bytes remain. |
| `Buffers.BufferReader.ReadAligned` | inc/osvr/Common/SerializationTraits.h:134 | Skips the padding for the bytes read so far, then takes `size` bytes. Fails when they do not remain. It then stands past the padding, or where it was if even the padding does not fit. |
| `SerializationTraits.StoredLength` | inc/osvr/Common/SerializationTraits.h:169-174 | The `uint32_t` length fits 32 bits and is at most the string's length. It equals the length whenever the length fits. |
| `SerializationTraits.ArithmeticEncoding` | inc/osvr/Common/SerializationTraits.h:122-127 | The bytes the arithmetic traits append are `spaceRequired` long. They end with `hton(v)`, which starts at a multiple of the alignment. |
| `SerializationTraits.ArithmeticSpaceRequired` | inc/osvr/Common/SerializationTraits.h:142-147 | `sizeof(T) <= n < sizeof(T) + Alignment`, and the value starts at a multiple of the alignment. |
| `SerializationTraits.ArithmeticSpaceIsLength` | inc/osvr/Common/SerializationTraits.h:138-147 | `spaceRequired(existing)` is exactly the number of bytes `buffer` appends, whatever the value. |
| `SerializationTraits.ArithmeticDecoding` | inc/osvr/Common/SerializationTraits.h:129-136 | Reading fails exactly when fewer than `spaceRequired(pos)` bytes remain. On success it yields an in-range value, and the cursor ends `spaceRequired(pos)` further on. |
| `SerializationTraits.ArithmeticLayout` | inc/osvr/Common/SerializationTraits.h:124-127 | `buffer` writes zero padding up to an offset that is a multiple of the alignment, then the value's big-endian bytes. |
| `SerializationTraits.ArithmeticRoundTrip` | inc/osvr/Common/SerializationTraits.h:124-136 | A reader at the writer's offset reads the value back and advances by `spaceRequired`. |
| `SerializationTraits.Encoding` | inc/osvr/Common/SerializationTraits.h:79-86 | An arithmetic value takes `spaceRequired` bytes. A string takes the `uint32` length prefix plus its stored (32-bit) length. |
| `SerializationTraits.SpaceRequired` | inc/osvr/Common/SerializationTraits.h:97-105 | `getBufferSpaceRequiredRaw` equals the length of what `buffer` appends, for every arithmetic value and for every string whose length fits 32 bits. |
| `SerializationTraits.Decoding` | inc/osvr/Common/SerializationTraits.h:88-95 | A successful read yields a value of the requested type, and the cursor stays within the data. |
| `SerializationTraits.RoundTrip` | inc/osvr/Common/SerializationTraits.h:79-105 | For every tag, reading at the writer's offset returns the value written and advances by `spaceRequired`. |
| `SerializationTraits.StringRoundTrip` | inc/osvr/Common/SerializationTraits.h:171-187 | `unbuffer` reads the length, then exactly that many bytes, and reproduces the string. |
| `SerializationTraits.RoundTripAfter` | inc/osvr/Common/SerializationTraits.h:79-95 | The same round trip in a buffer that holds anything before and after the value. |
| `SerializationTraits.StringLayout` | inc/osvr/Common/SerializationTraits.h:169-197 | A string is the default `uint32` encoding of its length followed by exactly its bytes, with no trailing padding. Its `spaceRequired` is that of a `uint32` plus its length. |
| `SerializationTraits.OverlongStringSpace` | inc/osvr/Common/SerializationTraits.h:174-197 | For a string of 2^32 bytes or more, `spaceRequired` counts more bytes than `buffer` appends. |
| `SerializationTraits.DefaultTraits` | inc/osvr/Common/SerializationTraits.h:150-159 | The default tag is well formed and accepts every in-range arithmetic value and every string. It aligns each arithmetic type to its own size. |
| `SerializationTraits.DefaultAlignsToSize` | inc/osvr/Common/SerializationTraits.h:150-159 | The default tag aligns each arithmetic type to its own size. |
| `SerializationTraits.BufferArithmetic` | inc/osvr/Common/SerializationTraits.h:122-127 | Appends the arithmetic encoding at the current size. |
| `SerializationTraits.UnbufferArithmetic` | inc/osvr/Common/SerializationTraits.h:129-136 | Succeeds exactly when the decoding does. It then returns the decoded value and leaves the cursor where the decoding ends. |
| `SerializationTraits.BufferString` | inc/osvr/Common/SerializationTraits.h:171-177 | Appends the length by the `uint32` rule, then that many of the string's bytes. |
| `SerializationTraits.UnbufferString` | inc/osvr/Common/SerializationTraits.h:179-187 | Succeeds exactly when the string decoding does. It then returns the string and leaves the cursor after it. |
| `SerializationTraits.SerializeRaw` | inc/osvr/Common/SerializationTraits.h:79-86 | Appends the encoding its tag selects. The buffer then grows by exactly `getBufferSpaceRequiredRaw`. |
| `SerializationTraits.DeserializeRaw` | inc/osvr/Common/SerializationTraits.h:88-95 | Reads by the strategy its tag selects, and agrees with `Decoding` on success, value and cursor. |
| `Serialization.DefaultSpaceRequired` | inc/osvr/Common/Serialization.h:88-90 | `sizeof(T) <= n < sizeof(T) + Alignment`, and the value starts at a multiple of the alignment. Requires `Alignment > 1`. |
| `Serialization.DefaultBuffer` | inc/osvr/Common/Serialization.h:91-96 | Appends `paddingRequired(size)` zero bytes, then the big-endian value. Grows by `spaceRequired` and keeps the earlier bytes. |
| `Serialization.DefaultUnbuffer` | inc/osvr/Common/Serialization.h:98-104 | Skips `paddingRequired(bytesRead)`, then reads `sizeof(T)` bytes. This agrees with the current traits' decoding. A failed read stands past the padding, or where it was if even the padding does not fit. |
| `Serialization.DefaultRoundTrip` | inc/osvr/Common/Serialization.h:91-104 | `unbuffer` inverts `buffer` when the reader stands where the writer's buffer ended, and advances by `spaceRequired`. |
| `Serialization.SerializeFunctor.constructor` | inc/osvr/Common/Serialization.h:114 | The functor holds the given buffer. |
| `Serialization.SerializeFunctor.Apply` | inc/osvr/Common/Serialization.h:121-125 | Appends the value by its tag's traits. |
| `Serialization.DeserializeFunctor.constructor` | inc/osvr/Common/Serialization.h:135 | The functor holds the given reader. |
| `Serialization.DeserializeFunctor.Apply` | inc/osvr/Common/Serialization.h:142-146 | Reads the value by its tag's traits. |
| `KeyedOwnership.KeyedOwnershipContainer.Acquire` | inc/osvr/Util/KeyedOwnershipContainer.h:46-48 | Returns the object's own address as the key, and the key now maps to the object. |
| `KeyedOwnership.KeyedOwnershipContainer.MInsert` | inc/osvr/Util/KeyedOwnershipContainer.h:64-67 | Sets or overwrites the entry for the key, and returns the key. |
| `KeyedOwnership.KeyedOwnershipContainer.Release` | inc/osvr/Util/KeyedOwnershipContainer.h:58-61 | Returns true exactly when the key was present. The key is then absent, and every other entry is unchanged. |
| `KeyedOwnership.ReleaseTwice` | inc/osvr/Util/KeyedOwnershipContainer.h:46-61 | Releasing the key of an acquired object twice returns true, then false. |
| `PathElements.AliasElement.constructor` | src/osvr/Common/PathElementTypes.cpp:37-38 | The alias holds the given source. |
| `PathElements.AliasElement.SetSource` | src/osvr/Common/PathElementTypes.cpp:39-42 | Replaces the source unconditionally. |
| `PathElements.AliasElement.GetSource` | src/osvr/Common/PathElementTypes.cpp:44 | Returns the current source. |
| `PathElements.CreateVRPNDeviceElement` | src/osvr/Common/PathElementTypes.cpp:46-58 | The device reports the given device name and server. |
| `PathElements.DeviceElement.GetDeviceName` | src/osvr/Common/PathElementTypes.cpp:55-57 | Returns the device name given at construction. |
| `PathElements.DeviceElement.GetServer` | src/osvr/Common/PathElementTypes.cpp:58 | Returns the server given at construction. |
| `PathElements.DeviceElement.GetFullDeviceName` | src/osvr/Common/PathElementTypes.cpp:59-61 | The full name is the device name, then `@`, then the server, and its length is the sum plus one. |
| `PathElements.FullNameSplits` | src/osvr/Common/PathElementTypes.cpp:59-61 | When the device name has no `@`, splitting the full name at its first `@` recovers the name and the server. |
| `PathElements.FullNameAmbiguous` | src/osvr/Common/PathElementTypes.cpp:59-61 | Without that condition, two different devices can share a full name. |
| `ClientInterface.ClientInterfaceObject.constructor` | inc/osvr/Client/ClientInterface.h:53-55 | A new interface has the given path, no state and no callbacks. |
| `ClientInterface.ClientInterfaceObject.GetPath` | inc/osvr/Client/ClientInterface.h:58 | Returns the path, which is a `const` field and never changes. |
| `ClientInterface.ClientInterfaceObject.GetState` | inc/osvr/Client/ClientInterface.h:60-71 | Returns true, with the stored timestamp and state, exactly when state exists for the report type. Otherwise the out-parameters are untouched. |
| `ClientInterface.ClientInterfaceObject.RegisterCallback` | inc/osvr/Client/ClientInterface.h:73-77 | Appends the callback and leaves the state alone. |
| `ClientInterface.ClientInterfaceObject.SetStateKept` | inc/osvr/Client/ClientInterface.h:94-98 | Records the report's state and timestamp for its type. |
| `ClientInterface.ClientInterfaceObject.SetStateNotKept` | inc/osvr/Client/ClientInterface.h:100-104 | Changes nothing. |
| `ClientInterface.ClientInterfaceObject.TriggerCallbacks` | inc/osvr/Client/ClientInterface.h:79-87 | Sets the state first, then calls the callbacks of the report's type in registration order. Each call sees the state as set. |
| `ClientInterface.Lookup` | inc/osvr/Client/ClientInterface.h:60-71 | There is state exactly when the type has an entry, and it is that entry. |
| `ClientInterface.NextState` | inc/osvr/Client/ClientInterface.h:84-104 | A state-keeping report adds or replaces its type's entry with its timestamp and state. Other types keep their entries, and no other key appears. |
| `ClientInterface.Invocations` | inc/osvr/Client/ClientInterface.h:86 | There are at most as many calls as registered callbacks. |
| `ClientInterface.CallbacksSeeKeptState` | inc/osvr/Client/ClientInterface.h:84-86 | For a state-keeping report, every callback sees `getState` return that report's state and timestamp. |
| `ClientInterface.InvocationsCarry` | inc/osvr/Client/ClientInterface.h:86 | Every call passes the report's timestamp and report, and belongs to a registered callback of the report's type. |
| `ClientInterface.InvocationsComplete` | inc/osvr/Client/ClientInterface.h:86 | Every registered callback of the report's type is called. |
| `ClientInterface.InvocationsAfterRegister` | inc/osvr/Client/ClientInterface.h:74-86 | A callback registered later is called after all the earlier ones. |
| `ClientInterface.NextStateChangesOnlyKept` | inc/osvr/Client/ClientInterface.h:84-104 | `triggerCallbacks` changes the state only for the report's own type, and only when that type keeps state. |
| `ClientContext.ParameterLookup` | inc/osvr/Client/ClientContext.h:82-84 | The value set for the path, or the empty string when none was set. |
| `ClientContext.WithoutRemoves` | inc/osvr/Client/ClientContext.h:63-72 | Removing a retained interface from a list without repeats drops exactly that one. The rest keep their order and stay distinct. |
| `ClientContext.WithoutAt` | inc/osvr/Client/ClientContext.h:63-72 | Removing the first occurrence, found at index `i`, cuts the list at `i`. |
| `ClientContext.ClientContextObject.constructor` | inc/osvr/Client/ClientContext.h:102-114 | A new context has the given app id, no interfaces, no parameters and an empty registry. |
| `ClientContext.ClientContextObject.GetAppId` | inc/osvr/Client/ClientContext.h:53-54 | Returns the app id given at construction, which is a `const` field. |
| `ClientContext.ClientContextObject.GetInterface` | inc/osvr/Client/ClientContext.h:56-61 | Creates a fresh interface for the path and appends it to the retained interfaces. |
| `ClientContext.ClientContextObject.ReleaseInterface` | inc/osvr/Client/ClientContext.h:63-72 | For null, or an interface that is not retained, returns null and changes nothing. For a retained interface, removes it and returns it. |
| `ClientContext.ClientContextObject.GetInterfaces` | inc/osvr/Client/ClientContext.h:74 | Returns the retained interfaces. |
| `ClientContext.ClientContextObject.SetParameter` | inc/osvr/Client/ClientContext.h:86-87 | Sets or overwrites the path's value. |
| `ClientContext.ClientContextObject.GetStringParameter` | inc/osvr/Client/ClientContext.h:82-84 | Returns the value set for the path, or the empty string. |
| `ClientContext.ClientContextObject.AcquireObject` | inc/osvr/Client/ClientContext.h:89-93 | Delegates to the registry: the key is the object's address, and it now maps to the object. |
| `ClientContext.ClientContextObject.ReleaseObject` | inc/osvr/Client/ClientContext.h:95-99 | Returns true exactly when the registry held the object, which it then no longer does. |
| `ClientContext.SetThenGet` | inc/osvr/Client/ClientContext.h:82-87 | A parameter read after it is set is the value set, and every other parameter is unchanged. |
| `ClientContext.AcquireThenRelease` | inc/osvr/Client/ClientContext.h:89-99 | The key `acquireObject` returns releases the object once, and only once. |
| `VrpnConnection.ListenPort` | src/osvr/Connection/VrpnBasedConnection.cpp:63-66 | A port of 0 becomes the default listen port, and any other port is kept. |
| `VrpnConnection.InterfaceFor` | src/osvr/Connection/VrpnBasedConnection.cpp:55-60 | A present, non-empty interface name is passed through; otherwise there is no interface. |
| `VrpnConnection.InterfaceForType` | src/osvr/Connection/VrpnBasedConnection.cpp:40-51 | `LOCAL_ONLY` binds to `localhost`, and `SHARED` binds to the default interface. |
| `VrpnConnection.InitConnection` | src/osvr/Connection/VrpnBasedConnection.cpp:63-69 | The server connection is created on the chosen interface, at a port that is never 0. |
| `VrpnConnection.RegistrationsSnoc` | src/osvr/Connection/VrpnBasedConnection.cpp:88-91 | A call adds a connection hook or a message record only if it registers a handler. |
| `VrpnConnection.RegistrationAsWritten` | src/osvr/Connection/VrpnBasedConnection.cpp:106-121 | As written: keeps the earlier log, registers the sender and the type when they are non-empty, then one handler for the record. Its sender filter is the device; its type filter is also the device. |
| `VrpnConnection.Registration` | src/osvr/Connection/VrpnBasedConnection.cpp:106-121 | As intended: the same calls, except that the handler's type filter is the message type. |
| `VrpnConnection.RegistrationFilters` | src/osvr/Connection/VrpnBasedConnection.cpp:106-121 | The corrected registration keeps the earlier log and registers one handler, last, for the new record. That handler gets exactly the messages of the requested type from the requested device; an empty string means any. |
| `VrpnConnection.RegistrationAsWrittenMisroutes` | src/osvr/Connection/VrpnBasedConnection.cpp:110-113 | As written, a handler for `position` messages from `tracker0` does not get them. It gets messages whose type is named `tracker0` instead. |
| `VrpnConnection.RegistrationAgreement` | src/osvr/Connection/VrpnBasedConnection.cpp:110-113 | The written and the corrected registrations agree exactly when the type is empty or equals the device name. |
| `VrpnConnection.RegistrationCounts` | src/osvr/Connection/VrpnBasedConnection.cpp:114-120 | A message-handler registration adds no connection hook, and registers the message hook for its own record only. |
| `VrpnConnection.VrpnBasedConnection.constructor` | src/osvr/Connection/VrpnBasedConnection.cpp:40-51 | The connection is created on the type's interface and the default port, with no handlers. |
| `VrpnConnection.VrpnBasedConnection.WithInterface` | src/osvr/Connection/VrpnBasedConnection.cpp:53-61 | The connection is created on the chosen interface and port, with 0 standing for an absent port. |
| `VrpnConnection.VrpnBasedConnection.RegisterConnectionHandler` | src/osvr/Connection/VrpnBasedConnection.cpp:84-101 | Only the first registration registers the `got connection` hook from any sender. Every registration appends the handler. The hook stays registered exactly once. |
| `VrpnConnection.VrpnBasedConnection.RegisterMessageHandler` | src/osvr/Connection/VrpnBasedConnection.cpp:102-121 | An empty device means any sender, and an empty type means any type. The type filter comes from the message type, as corrected in Findings. It appends exactly one record, whose message hook is registered once. |
| `VrpnConnection.VrpnBasedConnection.ConnectionHandler` | src/osvr/Connection/VrpnBasedConnection.cpp:137-145 | Calls every connection handler once, in registration order, and returns 0. |
| `VrpnConnection.VrpnBasedConnection.MessageHandler` | src/osvr/Connection/VrpnBasedConnection.cpp:123-135 | Passes the record's handler the sender, the type, the time and exactly `payload_len` bytes of the buffer, and returns 0. |
| `SearchPath.IsDotsExactly` | src/osvr/PluginHost/SearchPath.cpp:116-117 | The dot-name test is exactly "the name is `.` or `..`". |
| `SearchPath.Filename` | src/osvr/PluginHost/SearchPath.cpp:116 | The file name is no longer than the path and contains no separator. |
| `SearchPath.Extension` | src/osvr/PluginHost/SearchPath.cpp:112-113 | A non-empty extension starts with a dot. |
| `SearchPath.Stem` | src/osvr/PluginHost/SearchPath.cpp:116 | The stem is no longer than the file name. |
| `SearchPath.StemAndExtension` | src/osvr/PluginHost/SearchPath.cpp:112-117 | The stem and the extension split the file name. An extension is a dot followed by a part with no further dot. |
| `SearchPath.HasExtension` | src/osvr/PluginHost/SearchPath.cpp:81-83 | An entry that passes is a regular file. The extension it matches is empty, or a dot followed by no further dot. |
| `SearchPath.Listing` | src/osvr/PluginHost/SearchPath.cpp:68-80 | The listing starts with the entries of the first search directory. |
| `SearchPath.ListingMembers` | src/osvr/PluginHost/SearchPath.cpp:68-80 | An entry is listed exactly when it is in an existing search directory, so directories that do not exist are skipped. |
| `SearchPath.AllFilesWithExtMembers` | src/osvr/PluginHost/SearchPath.cpp:65-90 | A path is returned exactly when a regular file with the extension, in an existing directory, has that path. |
| `SearchPath.AllFilesWithExt` | src/osvr/PluginHost/SearchPath.cpp:65-90 | There are no more results than listed entries. |
| `SearchPath.AllFilesWithExtPrefix` | src/osvr/PluginHost/SearchPath.cpp:68-87 | The result for a prefix of the directory list is a prefix of the result. |
| `SearchPath.AllFilesNext` | src/osvr/PluginHost/SearchPath.cpp:68-87 | One more directory appends its kept entries after the earlier results. |
| `SearchPath.PathsNext` | src/osvr/PluginHost/SearchPath.cpp:79-86 | One more entry appends its path exactly when it is a regular file with the extension. |
| `SearchPath.GetAllFilesWithExt` | src/osvr/PluginHost/SearchPath.cpp:65-90 | The loops return exactly the regular files with the extension, in directory order and then entry order. |
| `SearchPath.FirstMatchIsFirst` | src/osvr/PluginHost/SearchPath.cpp:94-128 | The search finds nothing exactly when no entry is accepted. Otherwise it finds the first accepted entry. |
| `SearchPath.IsPlugin` | src/osvr/PluginHost/SearchPath.cpp:105-121 | A plugin is a regular file with the plugin extension, whose file name is the plugin name, or the name with the manual-load suffix, followed by that extension. |
| `SearchPath.FindPlugin` | src/osvr/PluginHost/SearchPath.cpp:92-129 | The loops return the first plugin, in search-path order and then directory order, or the empty string. |
| `SearchPath.FoundAt` | src/osvr/PluginHost/SearchPath.cpp:120-124 | The early return is the search result: nothing before the returned entry was accepted. |
| `SearchPath.FirstMatchListed` | src/osvr/PluginHost/SearchPath.cpp:94-124 | A found entry comes from an existing directory, and no entry listed before it is accepted. |
| `SearchPath.FindPluginResult` | src/osvr/PluginHost/SearchPath.cpp:92-129 | A non-empty result is the path of a plugin file in an existing search path. |
| `SearchPath.FindPluginReturnsFirstPlugin` | src/osvr/PluginHost/SearchPath.cpp:103-124 | A returned path is that of a regular file with the plugin extension and the right stem, in an existing search path. No entry listed before it is such a file. |
| `SearchPath.FindPluginEmptyIffNone` | src/osvr/PluginHost/SearchPath.cpp:128 | When no entry's path is empty, the empty string is returned exactly when no entry is a plugin. |

## Left out

- `Transform.h`, `ImagingComponent.h`, `PluginSpecificRegistrationContext.cpp` and `RegisterShutdownHandler.h` are not part of this model. They hold floating-point matrix code, declarations only, logging and platform signal selection.
- Floating-point values: the codec is modelled for the eight integer types only. `hton` on `float`/`double` depends on the IEEE representation.
- `Buffer.h` and `Endianness.h` are not part of this model.
  - The buffer is a byte sequence that is only appended to, and the reader is the same sequence with a cursor.
  - `hton`/`ntoh` are big-endian encoding over two's-complement bit patterns.
  - `computeAlignmentPadding` is the formula at `Serialization.h:84-87`.
- `Serialization.h`'s free `serialize` overloads (42-53) are not modelled. They append `hton(val)` with no alignment padding, and the functors do not call them.
- `Serialization.h`'s integer `deserialize` (55-60) and its integral `SerializationTraits` specialisation (106-109) are empty. The functors therefore hand each value to the complete traits of `SerializationTraits.h`.
- `MessageSerializationBase` only sequences functor calls over a message's members, so no message type is modelled.
- `size_t` wrap-around in `spaceRequired`: lengths are unbounded integers. The 32-bit string length prefix is modelled, by truncation.
- `SerializationTraits.DeserializeRaw`: on a failed read the final cursor is not stated. It may already be past the padding.
- `SerializationTraits.UnbufferString`: on a failed read the final cursor is not stated. It may already be past the padding.
- `SerializationTraits.UnbufferArithmetic`: on a failed read the final cursor is not stated. It may already be past the padding.
- `Serialization.DeserializeFunctor.Apply`: on a failed read the final cursor is not stated. It may already be past the padding.
- `Buffers.BufferReader.ReadAligned`: its contract states that a failure leaves the cursor past the padding. Whether the real reader does the same, or throws, is an assumption, since `Buffer.h` is not part of this model.
- `Serialization.DefaultUnbuffer`: the same assumption as `ReadAligned`, since it skips the padding before reading.
- `SerializationTraits.SerializeRaw`: its size guarantee is stated only for strings shorter than 2^32 bytes. For longer ones `spaceRequired` overstates the size (`OverlongStringSpace`).
- `getPluginSearchPath`: the search paths, the plugin extension and the manual-load suffix are parameters. The executable's location and the build macros are not modelled.
- Filesystem details:
  - A search path that exists but is not a directory is modelled as missing, and its entries are skipped. In the code, `directory_iterator` throws for such a path (`SearchPath.cpp:80` and `:102`); the model does not capture that exception.
  - `/` is the only separator; Windows drive letters and `\` are not modelled.
  - The path rules for `filename`, `extension` and `stem` are those of `boost::filesystem` version 3.
- VRPN internals are not modelled: the connection object, `mainloop`/`m_process`, `timeval` conversion and the numeric ids. An id is represented by the name it was registered from, and `message_type_name`/`sender_name` hand back those names.
- `m_registerMessageType` and `m_registerDevice` are not modelled: `VrpnMessageType` and `VrpnConnectionDevice` are not part of this model.
- The ping handler in the `#if 0` block is not modelled, since it is compiled out; neither is `vrpnPing`.
- `VrpnConnection.VrpnBasedConnection.constructor`, `VrpnConnection.VrpnBasedConnection.WithInterface`: `VrpnBasedConnection.h` is not part of this model. That `m_initConnection` defaults to no interface and port 0 is an assumption, taken from its call sites.
- `getUnderlyingObject` and `getConnectionKindID` are not modelled; they only expose the VRPN object.
- `OSVR_ClientContextObject::update`, `sendRoute` and `getRoutes` are not modelled: their bodies and the route container are not part of this model.
- `OSVR_ClientInterfaceObject::update` and the interface's back-pointer to its context are not modelled.
- `InterfaceState` and `InterfaceCallbacks` are modelled as a map from report type to its latest entry and a list of callbacks. A callback is identified by its `userdata`, and a report's state is an integer.
- `ClientContext.ClientContextObject.GetStringParameter`: returns the empty string for a path never set. This is an assumption, since the context's implementation file is not part of this model.
- `VrpnConnection.VrpnBasedConnection.MessageHandler`: requires `payload_len` to be within the buffer, as constructing `std::string(buffer, payload_len)` does.
- Destruction and ownership lifetimes (`shared_ptr`, `unique_ptr`) are not modelled. Objects are references or values.

## Findings

| source | as written | input that shows it | evidently intended | confidence | as-written member | corrected member |
|---|---|---|---|---|---|---|
| src/osvr/Connection/VrpnBasedConnection.cpp:112 | The message-type filter is registered from `device.c_str()`. | Device `"tracker0"`, message type `"position"`: the handler listens for type `"tracker0"` and never receives `"position"` messages. | The type is registered from `messageType.c_str()`. | not executed | `VrpnConnection.RegistrationAsWrittenMisroutes` | `VrpnConnection.RegistrationFilters` |
