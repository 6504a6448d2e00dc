# Virtual amiibo store, Title id decoder and effect channel-count check, in Dafny

This project models three pieces of the Ryujinx emulator and proves properties of them.

**Virtual amiibo** (`Ryujinx.HLE/HOS/Services/Nfc/Nfp/VirtualAmiibo.cs`). An amiibo is an NFC figurine. The emulator keeps one JSON record per amiibo id in its amiibo directory. Each record holds:

- a file version, a name that may be null, and a tag UUID (empty, 9 bytes when generated, or the imported dump's serial);
- the amiibo id, the first and last write dates, and a write counter;
- an ordered list of application areas, each an area id with its data bytes.

Around the record there are four pieces:

- a UUID generator with two XOR check bytes;
- a load that creates a default record for an id it has not seen;
- one process-wide "opened application area id", with open, get, create and set operations on it;
- an import that merges a decrypted tag dump into the store.

The model has these parts:

- `virtual_amiibo.dfy` holds class `VirtualAmiibo`. Its fields are the directory, as a map from amiibo id to record, and the opened area id. A ghost counter records file writes, so the contracts can say when a write is skipped.
- Every C# operation except `GenerateRandomUuid` and `ValidateAmiiboKey` is a method of that class. Each one states its whole new state, the write count included, as a function of the old state.
- `GenerateRandomUuid` uses no store state. It is the module-level method `AmiiboUuid.GenerateRandomUuid`.
- `ValidateAmiiboKey` reads configuration. It is the `keyValid` argument of `LoadAmiiboFromBin`.
- `amiibo_file.dfy` holds the record and the pure functions on the area list. `uuid.dfy` holds the UUID check bytes.
- `session.dfy` proves how the operations behave in sequence: set then get, setting the same data twice, creating the same area twice, and two UUID requests.

**Title** (`libamiibo/Data/Settings/AppData/Title.cs`). A view over an 8-byte title id held in an `ArraySegment<byte>`. `title.dfy` models:

- `UniqueID`, `Variation` and the three `FromTitleID` overloads that take bytes, a segment or a `long`;
- the offsets that `Platform`, `Category` and `TitleID` read.

The host's byte order (`BitConverter.IsLittleEndian`) is a parameter. The lemmas show the results are the same on either host.

**Effect parameter** (`Ryujinx.Audio/Renderer/Parameter/EffectInParameterVersion2.cs`). `effect_parameter.dfy` models:

- the seven `IEffectInParameter` accessors, as one view function;
- `IsChannelCountValid`.

`common.dfy` holds the shared integer widths, `Option` (a C# null) and `Reverse`.

The model follows the code exactly, including these behaviours that a reader might not expect:

- `SaveAmiiboFile` only writes the record. `LastWriteDate` is set once, when `CreateAmiiboJSON` builds a record, and no later write updates it.
- `FileVersion` is 0 on both creation paths.
- After a failed open, the import's overwrite goes to whatever area id was open before (`VirtualAmiibo.cs:272-277`).
- For a new amiibo id, the import's `randomizeUID` only calls `GenerateUuid(id, true)` (`VirtualAmiibo.cs:286-289`). That returns a random UUID and stores nothing, so the new record keeps the dump's serial as its UUID.

## Model

| member | source | states |
|---|---|---|
| `AmiiboUuid.WithChecksums` | Ryujinx.HLE/HOS/Services/Nfc/Nfp/VirtualAmiibo.cs:46-47 | The UUID has valid check bytes: byte 3 is 0x88 ^ b0 ^ b1 ^ b2, and byte 8 is b3 ^ b4 ^ b5 ^ b6 using the new byte 3. The other seven bytes, byte 7 included, are the random input unchanged. |
| `AmiiboUuid.GenerateRandomUuid` | Ryujinx.HLE/HOS/Services/Nfc/Nfp/VirtualAmiibo.cs:40-50 | The array is filled with the 9 random bytes and its two check bytes are written in place. The result is exactly `WithChecksums` of the fill, so its checksums are valid. |
| `AmiiboUuid.ChecksumsFixpoint` | Ryujinx.HLE/HOS/Services/Nfc/Nfp/VirtualAmiibo.cs:46-47 | A 9-byte UUID has valid check bytes if and only if recomputing them leaves it unchanged. |
| `AmiiboUuid.WithChecksumsIdempotent` | Ryujinx.HLE/HOS/Services/Nfc/Nfp/VirtualAmiibo.cs:46-47 | Recomputing the check bytes of a generated UUID changes nothing. |
| `Common.ToUInt16` | Ryujinx.HLE/HOS/Services/Nfc/Nfp/VirtualAmiibo.cs:58 | The unchecked `(ushort)` cast of a year agrees with the value modulo 2^16, and is the identity on values already in range. |
| `Common.ToUInt8` | Ryujinx.HLE/HOS/Services/Nfc/Nfp/VirtualAmiibo.cs:59-60 | The unchecked `(byte)` cast of a month or day agrees with the value modulo 2^8, and is the identity on values already in range. |
| `Common.Reverse` | libamiibo/Data/Settings/AppData/Title.cs:69-70 | `Array.Reverse` keeps the length. `AmiiboTitle.LittleEndianOfReverse`, `AmiiboTitle.ReverseOfAppend` and `AmiiboTitle.ReverseLittleEndianBytes` state what it does to byte order. |
| `Common.ToUInt32` | Ryujinx.HLE/HOS/Services/Nfc/Nfp/VirtualAmiibo.cs:272 | The unchecked `(uint)` cast of the game series id agrees with the value modulo 2^32, and is the identity on values already in range. |
| `AmiiboFile.NewFile` | Ryujinx.HLE/HOS/Services/Nfc/Nfp/VirtualAmiibo.cs:217-252 | CreateAmiiboJSON's record. A null TagUuid becomes empty and a null FirstWriteDate becomes now. LastWriteDate is now. A non-null area gives exactly one area, findable under the given id. A null area gives an empty list. |
| `AmiiboFile.DefaultFile` | Ryujinx.HLE/HOS/Services/Nfc/Nfp/VirtualAmiibo.cs:204 | The record made for an unknown id has FileVersion 0, name "Ryujinx", an empty UUID, WriteCounter 0 and no areas. |
| `AmiiboFile.HasArea` | Ryujinx.HLE/HOS/Services/Nfc/Nfp/VirtualAmiibo.cs:108 | The `Any` test on the area ids. It has no contract of its own; `AmiiboFile.FindAreaSpec` ties it to the scan. |
| `AmiiboFile.FindArea` | Ryujinx.HLE/HOS/Services/Nfc/Nfp/VirtualAmiibo.cs:122-130 | The first-match scan of the areas. It has no contract of its own; `AmiiboFile.FindAreaSpec` and `AmiiboFile.FindAreaAt` state what it finds. |
| `AmiiboFile.ReplaceArea` | Ryujinx.HLE/HOS/Services/Nfc/Nfp/VirtualAmiibo.cs:168-184 | The first-match replacement of an area's data. Its contract keeps the list length. `AmiiboFile.ReplaceAreaAt` and the lemmas after it state the rest. |
| `AmiiboFile.FindAreaSpec` | Ryujinx.HLE/HOS/Services/Nfc/Nfp/VirtualAmiibo.cs:122-130 | The linear scan finds something if and only if some area has the id (the `Any` test). What it finds is the data of an area with that id. |
| `AmiiboFile.FindAreaAt` | Ryujinx.HLE/HOS/Services/Nfc/Nfp/VirtualAmiibo.cs:122-128 | When ids are unique, the scan for the id of area i returns area i's data. |
| `AmiiboFile.ReplaceAreaAt` | Ryujinx.HLE/HOS/Services/Nfc/Nfp/VirtualAmiibo.cs:168-184 | Replacing the first area with the id is an in-place update at that area's index (the indexed loop that breaks). |
| `AmiiboFile.ReplaceAreaMissing` | Ryujinx.HLE/HOS/Services/Nfc/Nfp/VirtualAmiibo.cs:166 | When no area has the id, the list is unchanged. |
| `AmiiboFile.ReplaceAreaIdsAt` | Ryujinx.HLE/HOS/Services/Nfc/Nfp/VirtualAmiibo.cs:175-179 | The replacement keeps the id at every index. |
| `AmiiboFile.ReplaceAreaKeepsIds` | Ryujinx.HLE/HOS/Services/Nfc/Nfp/VirtualAmiibo.cs:175-179 | The list of ids is unchanged in content and order, so unique ids stay unique. |
| `AmiiboFile.FindAfterReplace` | Ryujinx.HLE/HOS/Services/Nfc/Nfp/VirtualAmiibo.cs:162-188 | After the replacement, the area with that id holds the new data. |
| `AmiiboFile.FindAfterReplaceOther` | Ryujinx.HLE/HOS/Services/Nfc/Nfp/VirtualAmiibo.cs:162-188 | Every other id finds the same data as before. |
| `AmiiboFile.ReplaceWithSameData` | Ryujinx.HLE/HOS/Services/Nfc/Nfp/VirtualAmiibo.cs:172-173 | Writing back the bytes an area already holds is the identity, so skipping the save loses nothing. |
| `AmiiboFile.AppendArea` | Ryujinx.HLE/HOS/Services/Nfc/Nfp/VirtualAmiibo.cs:137-146 | Appending an area whose id is new keeps the ids unique, and the new area is then found under its id. |
| `VirtualAmiiboStore.Loaded` | Ryujinx.HLE/HOS/Services/Nfc/Nfp/VirtualAmiibo.cs:190-208 | The loaded record belongs to the requested id and has unique area ids. For an unknown id it has an empty UUID, no areas and WriteCounter 0. |
| `VirtualAmiiboStore.CommonInfoOf` | Ryujinx.HLE/HOS/Services/Nfc/Nfp/VirtualAmiibo.cs:56-65 | CommonInfo carries the record's WriteCounter, Version 1 and the given area size. Its year, month and day are the last write date's, and the narrowing casts lose nothing for in-range dates. |
| `VirtualAmiiboStore.WithDefaultName` | Ryujinx.HLE/HOS/Services/Nfc/Nfp/VirtualAmiibo.cs:89-94 | A null name becomes "Ryujinx". A record that already has a name is unchanged. |
| `VirtualAmiiboStore.RegisterInfoOf` | Ryujinx.HLE/HOS/Services/Nfc/Nfp/VirtualAmiibo.cs:79-99 | RegisterInfo carries the record's name and font region 0. Its year, month and day are the first write date's, and the narrowing casts lose nothing for in-range dates. |
| `VirtualAmiiboStore.ImportedFile` | Ryujinx.HLE/HOS/Services/Nfc/Nfp/VirtualAmiibo.cs:284 | An imported new record takes its UUID from the dump's serial. Its name, setup date and write counter come from the dump, FileVersion is 0, and its single area is (game series id, app data). |
| `VirtualAmiiboStore.VirtualAmiibo.constructor` | Ryujinx.HLE/HOS/Services/Nfc/Nfp/VirtualAmiibo.cs:19 | The store starts over the given directory, with the static open id at 0. |
| `VirtualAmiiboStore.VirtualAmiibo.SaveAmiiboFile` | Ryujinx.HLE/HOS/Services/Nfc/Nfp/VirtualAmiibo.cs:210-215 | The record is written under its own AmiiboId, replacing the old one. Nothing else changes, and one write is counted. |
| `VirtualAmiiboStore.VirtualAmiibo.CreateAmiiboJSON` | Ryujinx.HLE/HOS/Services/Nfc/Nfp/VirtualAmiibo.cs:217-252 | Returns `NewFile` of its arguments and saves it under the given id. The open id is unchanged. |
| `VirtualAmiiboStore.VirtualAmiibo.LoadAmiiboFile` | Ryujinx.HLE/HOS/Services/Nfc/Nfp/VirtualAmiibo.cs:190-208 | A known id returns the stored record with no write. An unknown id creates, saves and returns the default record. |
| `VirtualAmiiboStore.VirtualAmiibo.GenerateUuid` | Ryujinx.HLE/HOS/Services/Nfc/Nfp/VirtualAmiibo.cs:21-38 | When a random UUID is asked for, it returns one and the store is untouched. Otherwise it returns the stored UUID. Only if that is empty does it store and save a freshly generated one. |
| `VirtualAmiiboStore.VirtualAmiibo.GetCommonInfo` | Ryujinx.HLE/HOS/Services/Nfc/Nfp/VirtualAmiibo.cs:52-66 | Loads the record (creating it if unknown) and returns its CommonInfo. |
| `VirtualAmiiboStore.VirtualAmiibo.GetRegisterInfo` | Ryujinx.HLE/HOS/Services/Nfc/Nfp/VirtualAmiibo.cs:68-102 | Loads the record. A null name is replaced by "Ryujinx" and that one write is saved. Returns the RegisterInfo of the named record. |
| `VirtualAmiiboStore.VirtualAmiibo.OpenApplicationArea` | Ryujinx.HLE/HOS/Services/Nfc/Nfp/VirtualAmiibo.cs:104-116 | Returns true if and only if the record has an area with the id. On true the open id becomes that id; on false it keeps its previous value. |
| `VirtualAmiiboStore.VirtualAmiibo.GetApplicationArea` | Ryujinx.HLE/HOS/Services/Nfc/Nfp/VirtualAmiibo.cs:118-131 | The loop returns the data of the first area whose id is the open id, or no bytes. |
| `VirtualAmiiboStore.VirtualAmiibo.CreateApplicationArea` | Ryujinx.HLE/HOS/Services/Nfc/Nfp/VirtualAmiibo.cs:133-151 | If the id exists, it returns false and saves nothing. Otherwise it appends the area at the end, saves once and returns true. The store invariant keeps area ids unique. |
| `VirtualAmiiboStore.VirtualAmiibo.SetAmiiboName` | Ryujinx.HLE/HOS/Services/Nfc/Nfp/VirtualAmiibo.cs:153-160 | Only the name of the loaded record changes, and it is saved. |
| `VirtualAmiiboStore.VirtualAmiibo.SetApplicationArea` | Ryujinx.HLE/HOS/Services/Nfc/Nfp/VirtualAmiibo.cs:162-188 | Only the data of the first area with the open id changes. Other areas, their order and all other fields are kept. It saves exactly when that area exists and its bytes differ, and does nothing when no area has the open id. |
| `VirtualAmiiboStore.VirtualAmiibo.OverwriteFromDump` | Ryujinx.HLE/HOS/Services/Nfc/Nfp/VirtualAmiibo.cs:276-277 | The import's overwrite of a known record. The first area with the open id gets the dump's data and the name becomes the nickname; nothing else changes. The name save always happens, and the data save only when the bytes differ. |
| `VirtualAmiiboStore.VirtualAmiibo.ImportIntoKnown` | Ryujinx.HLE/HOS/Services/Nfc/Nfp/VirtualAmiibo.cs:270-279 | The import's branch for an id that has a record. It opens the series-id area, keeping the old open id if that fails, and takes the UUID. If the UUID differs from the serial, it overwrites the open area and the name. The final store, open id and write count are exact. |
| `VirtualAmiiboStore.VirtualAmiibo.LoadAmiiboFromBin` | Ryujinx.HLE/HOS/Services/Nfc/Nfp/VirtualAmiibo.cs:254-293 | Without a valid key it returns null and nothing changes. A new id gets `ImportedFile`, and the later random GenerateUuid leaves it alone. For a known id it opens the area and takes the UUID. If the UUID differs from the serial, it overwrites the name and the data of whichever area is then open. It returns the StatueId. The write count is exact in every branch. A new id costs one write. A known id costs one write for a generated UUID, and, if the UUID differs from the serial, one for the name plus one more when the open area's bytes change. |
| `AmiiboSession.LoadAfterSave` | Ryujinx.HLE/HOS/Services/Nfc/Nfp/VirtualAmiibo.cs:210-215 | Loading after a save returns the saved record. |
| `AmiiboSession.LoadIsIdempotent` | Ryujinx.HLE/HOS/Services/Nfc/Nfp/VirtualAmiibo.cs:190-208 | A second load of the same id returns the same record. |
| `AmiiboSession.SetThenGet` | Ryujinx.HLE/HOS/Services/Nfc/Nfp/VirtualAmiibo.cs:162-188 | After setting the open area's data, reading the open area returns exactly that data. |
| `AmiiboSession.SecondSetIsSkipped` | Ryujinx.HLE/HOS/Services/Nfc/Nfp/VirtualAmiibo.cs:172-183 | A second set with the same data changes nothing, and its equality test skips the save. |
| `VirtualAmiiboStore.OpenAreaData` | Ryujinx.HLE/HOS/Services/Nfc/Nfp/VirtualAmiibo.cs:118-131 | The bytes GetApplicationArea returns. It has no contract of its own; `AmiiboSession.OpenAreaDataSpec` states them. |
| `AmiiboSession.OpenAreaDataSpec` | Ryujinx.HLE/HOS/Services/Nfc/Nfp/VirtualAmiibo.cs:118-131 | With no area under the open id, the read returns no bytes. Otherwise it returns the data of the unique area with that id. |
| `AmiiboSession.GenerateUuidTwice` | Ryujinx.HLE/HOS/Services/Nfc/Nfp/VirtualAmiibo.cs:21-38 | Two non-random UUID requests return the same bytes, and the second one writes nothing. The final store and write count are exactly those of the first request. For a new id the UUID is a checksummed fresh one, and it is stored. |
| `AmiiboSession.CreateAreaTwice` | Ryujinx.HLE/HOS/Services/Nfc/Nfp/VirtualAmiibo.cs:133-151 | A second create with the same id fails. The list is left as the first create made it: the loaded list plus the new area if the first create succeeded, and the loaded list unchanged if the id was already there. |
| `AmiiboSession.OpenSetGet` | Ryujinx.HLE/HOS/Services/Nfc/Nfp/VirtualAmiibo.cs:104-188 | Open, then set, then get: when the open succeeds, get returns exactly the bytes set. |
| `AmiiboSession.SetTwice` | Ryujinx.HLE/HOS/Services/Nfc/Nfp/VirtualAmiibo.cs:172-183 | Two sets with the same data write the record at most once, for a known or an unknown amiibo id. The final store is the one a single set gives. |
| `AmiiboSession.OpenMissingOnNewAmiibo` | Ryujinx.HLE/HOS/Services/Nfc/Nfp/VirtualAmiibo.cs:104-131 | On a new id, opening any area fails and the read returns no bytes. The new record is the default one. |
| `AmiiboTitle.FromTitleIdBytes` | libamiibo/Data/Settings/AppData/Title.cs:98-101 | The byte array is wrapped unchanged, as a segment at offset 0 covering the whole array. |
| `AmiiboTitle.FromTitleIdSegment` | libamiibo/Data/Settings/AppData/Title.cs:108-111 | The segment is wrapped unchanged. |
| `AmiiboTitle.Variation` | libamiibo/Data/Settings/AppData/Title.cs:80-83 | Variation is the byte at index 7 of the segment, counted from its offset. It is defined exactly when the segment has more than 7 bytes. |
| `AmiiboTitle.Window` | libamiibo/Data/Settings/AppData/Title.cs:49-61 | A window at a position has exactly the requested width. |
| `AmiiboTitle.HostBytes64` | libamiibo/Data/Settings/AppData/Title.cs:92 | `BitConverter.GetBytes(long)` in host order. Its contract states that it gives 8 bytes. The host-order assumption is this function: least significant byte first on a little-endian host, most significant first otherwise. `AmiiboTitle.FromTitleIdLongIsBigEndian` states what FromTitleID makes of these bytes. |
| `AmiiboTitle.HostUInt32` | libamiibo/Data/Settings/AppData/Title.cs:71 | `BitConverter.ToUInt32(data, 0)` reads the 4 bytes in host order. It has no contract of its own; `AmiiboTitle.UniqueIdValue` states the value UniqueID gets from it on either host. |
| `AmiiboTitle.ReverseOnLittleEndian` | libamiibo/Data/Settings/AppData/Title.cs:93-94 | The conditional `Array.Reverse`, applied only on a little-endian host. Its contract states that it keeps the length. `AmiiboTitle.FromTitleIdLongIsBigEndian` and `AmiiboTitle.UniqueIdValue` show that it cancels the host order. |
| `AmiiboTitle.UniqueId` | libamiibo/Data/Settings/AppData/Title.cs:63-73 | UniqueID is null (Array.Copy throws) when the underlying array has fewer than 7 bytes from the offset. `AmiiboTitle.UniqueIdValue` and `AmiiboTitle.UniqueIdDefined` state its value and when it is defined. |
| `AmiiboTitle.FromTitleIdLong` | libamiibo/Data/Settings/AppData/Title.cs:90-96 | FromTitleID(long) wraps a whole 8-byte array, at offset 0 with count 8. `AmiiboTitle.FromTitleIdLongIsBigEndian` and `AmiiboTitle.FromTitleIdLongFields` state its bytes and fields. |
| `AmiiboTitle.UniqueIdValue` | libamiibo/Data/Settings/AppData/Title.cs:63-73 | UniqueID is a[o+4]*65536 + a[o+5]*256 + a[o+6], with o the segment offset. This holds on either host byte order, so UniqueID is below 2^24. |
| `AmiiboTitle.UniqueIdDefined` | libamiibo/Data/Settings/AppData/Title.cs:68 | UniqueID is defined exactly when the underlying array has 7 bytes from the offset on. The segment's count plays no part. |
| `AmiiboTitle.LittleEndianOfReverse` | libamiibo/Data/Settings/AppData/Title.cs:69-71 | Reading reversed bytes little-endian gives the big-endian value. |
| `AmiiboTitle.ReverseLittleEndianBytes` | libamiibo/Data/Settings/AppData/Title.cs:92-94 | The little-endian bytes of a value, reversed, are its big-endian bytes. |
| `AmiiboTitle.FromTitleIdLongIsBigEndian` | libamiibo/Data/Settings/AppData/Title.cs:90-96 | On either host, FromTitleID(long) stores the value's 8 big-endian bytes. |
| `AmiiboTitle.BigEndianBytesAt` | libamiibo/Data/Settings/AppData/Title.cs:90-96 | Byte i of the n big-endian bytes is (v >> 8(n-1-i)) & 0xFF, with an arithmetic shift. |
| `AmiiboTitle.FromTitleIdLongBytes` | libamiibo/Data/Settings/AppData/Title.cs:90-96 | Byte i of FromTitleID(v) is (v >> (56 - 8i)) & 0xFF. |
| `AmiiboTitle.BigEndianRoundTrip` | libamiibo/Data/Settings/AppData/Title.cs:90-96 | Reading back the n big-endian bytes of v gives v mod 256^n. |
| `AmiiboTitle.BigEndianBytesSuffix` | libamiibo/Data/Settings/AppData/Title.cs:63-73 | The last k of the n big-endian bytes are the k-byte big-endian form. |
| `AmiiboTitle.FromTitleIdLongFields` | libamiibo/Data/Settings/AppData/Title.cs:63-96 | For FromTitleID(v), Variation is v & 0xFF and UniqueID is (v >> 8) & 0xFFFFFF. |
| `AmiiboTitle.FromTitleIdLongRoundTrip` | libamiibo/Data/Settings/AppData/Title.cs:90-96 | The 8 stored bytes, read big-endian as a two's-complement long, give back v. |
| `AmiiboTitle.Platform` | libamiibo/Data/Settings/AppData/Title.cs:49-52 | Platform decodes the 2 bytes at offset+0x00 of the underlying array. It is defined exactly when the array has 2 bytes from the offset. This assumes the NtagHelpers reader addresses the array from the offset and checks only the array bound. |
| `AmiiboTitle.Category` | libamiibo/Data/Settings/AppData/Title.cs:54-57 | Category decodes the 2 bytes at offset+0x02 of the underlying array. It is defined exactly when the array has 4 bytes from the offset. This assumes the NtagHelpers reader addresses the array from the offset and checks only the array bound. |
| `AmiiboTitle.TitleId` | libamiibo/Data/Settings/AppData/Title.cs:58-61 | TitleID decodes the 8 bytes at offset+0x00 of the underlying array. It is defined exactly when the array has 8 bytes from the offset. This assumes the NtagHelpers reader addresses the array from the offset and checks only the array bound. |
| `AmiiboTitle.FirstEightBytesDecide` | libamiibo/Data/Settings/AppData/Title.cs:49-61 | Platform (word at 0x00), Category (word at 0x02) and TitleID (64-bit word at 0x00) depend only on the first 8 bytes of the segment, whatever the decoder. |
| `EffectParameter.AsEffectInParameter` | Ryujinx.Audio/Renderer/Parameter/EffectInParameterVersion2.cs:73-85 | The seven `IEffectInParameter` accessors, as one view. It has no contract of its own; `EffectParameter.AccessorsForwardFields` states it. |
| `EffectParameter.AccessorsForwardFields` | Ryujinx.Audio/Renderer/Parameter/EffectInParameterVersion2.cs:73-85 | Each of the seven interface accessors returns its field unchanged. Two parameters look equal through the interface if and only if those seven fields agree. |
| `EffectParameter.IsChannelCountValid` | Ryujinx.Audio/Renderer/Parameter/EffectInParameterVersion2.cs:92-95 | The channel-count check. It has no contract of its own; `EffectParameter.ChannelCountValidIff` and the two lemmas after it state it. |
| `EffectParameter.ChannelCountValidIff` | Ryujinx.Audio/Renderer/Parameter/EffectInParameterVersion2.cs:92-95 | A channel count is valid if and only if it is in {1, 2, 4, 6}. |
| `EffectParameter.ChannelCountRejects` | Ryujinx.Audio/Renderer/Parameter/EffectInParameterVersion2.cs:94 | 0, every negative count, 3, 5 and every count above 6 are rejected. |
| `EffectParameter.ExactlyFourValidCounts` | Ryujinx.Audio/Renderer/Parameter/EffectInParameterVersion2.cs:92-95 | Exactly four 32-bit counts pass the check. |

## Left out

- File system and JSON are not modelled. The amiibo directory is a map, and serialising then deserialising a record is taken as the identity. Crash atomicity of `File.WriteAllText` is not modelled, nor are I/O errors.
- A record edited outside the emulator is not modelled. The constructor requires a directory where each record is stored under its own id with unique area ids.
- Randomness is a parameter. `new Random().NextBytes` is the 9-byte `randomBytes` argument.
- The clock is a parameter. `DateTime.Now` is the `now` argument. The two reads in `CreateAmiiboJSON` are taken as one instant.
- `DateTime` is a record of year, month, day and time of day. Calendar arithmetic is not modelled.
- Decryption is not modelled. `AmiiboTag.DecryptWithKeys` and the read of the bin file are replaced by the decrypted `AmiiboDump` value. A decryption failure, which is an exception, is not modelled.
- `ValidateAmiiboKey` reads and writes a config file. It is the `keyValid` argument.
- `GetRegisterInfo` synthesises a Mii (`CharInfo`, `StoreData.BuildDefault`, its `nickname` argument) and UTF-8-encodes into span buffers. These are calls outside this model. Only the date fields, font region, the record's name and the null-name default are kept.
- `AmiiboConstants.ApplicationAreaSize` is not part of this model. It is the `applicationAreaSize` argument of `GetCommonInfo`.
- Concurrency is not modelled. The static open id is unsynchronised shared state, and the model has a single sequential caller.
- `Title.Context` (a CDN download) and `UniqueIDType` (a lookup table not part of this model) are left out.
- `FromTitleID(string)` is left out, because its hex parser `NtagHelpers.StringToByteArrayFastest` is not part of this model.
- Platform, Category and TitleID: `NtagHelpers.UInt16FromTag` and `UInt64FromTag` are not part of this model, so two things about them are assumptions. The model assumes they read the underlying array from the segment's `Offset`. It also assumes they fail only past the array's end, not past `Count`. They are decoder arguments applied to the 2 or 8 bytes at the given position from the offset. Their byte order stays abstract. A read past the array's end is modelled as `None`.
- The `Category` flag table is not transcribed, because no modelled member needs its values.
- `EffectInParameterVersion2`'s struct layout, padding fields and the `SpecificData` span reinterpretation are memory layout, not logic. The specific data is kept only as a byte sequence that the accessors ignore.
- The `EffectType` enum is not part of this model. The effect type is an integer the accessor forwards.
- Exceptions in Title (`ArgumentException` from `Array.Copy`, `ArgumentOutOfRangeException` from the list indexer) are modelled as `None` results.
