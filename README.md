# packetevents core, modelled in Dafny

This project models the parts of packetevents that turn Minecraft packets into objects and back. Each part is written down as Dafny and proved to behave as the library promises.

- **Packet wrappers.** These read and write a byte buffer through a cursor. The model covers:
  - the bounded, length-prefixed UTF-8 string reader, the fixed-length byte-array reader and the two-long UUID reader of the legacy `PacketWrapper`;
  - the update-attributes packet, including its legacy attribute-name tables and its modifier operations;
  - the dust-colour-transition particle data, whose scale float moves at 1.20.5;
  - the particle and sound encodings, each a registry id or a direct form;
  - the login encryption request.

  Each read is proved to give back what the matching write produced, for every server version. The write primitives of the api `PacketWrapper` are not modelled from their own code. The model gives them concrete encodings following the Minecraft protocol, each with a matching reader: VarInt, identifier, optional float and mapped entity.
- **Enchantment registry.** It holds a name map and per-data-index id maps, and applies a rename table before looking a name up.
- **Text components and NBT.** `AdventureNBTSerializer` converts text components to NBT trees and back. The model covers:
  - the bare-string shortcut for plain text;
  - the fixed key precedence used when decoding;
  - optional keys that are written only when they differ from their default;
  - the four-int UUID codec;
  - the typed key lookups of `NBTReader`.
- **Proxy decoder.** `PacketEventsDecoder.read` commits each packet in one of three ways: drop it, pass its bytes through, or rewrite it from the last-used wrapper. It then runs the post tasks in order. It throttles error printing with a counter and a one-shot flag, and releases its copy of the buffer on every path.

The modules:

- Shared foundations:
  - `Wire`: byte encodings, Java integer wrap-around, the VarInt and UUID codecs, and `After(pos, e)`, the position after `e`.
  - `Utf8`: the UTF-8 codec and the UTF-16 length used by Java's `String.length()`.
  - `Versions`: server versions as ranks.
  - `Buffers`: a Netty `ByteBuf` with its reader index and reference count.
  - `Lists`: counted list readers and writers.
- Packet wrappers:
  - `Wrapper`: the legacy `PacketWrapper`.
  - `Codec`: the api `PacketWrapper` primitives.
  - `UpdateAttributes`: the attribute-update packet as functions.
  - `UpdateAttributesPacket`: the same packet as the class that reads and writes it.
  - `DustColorTransition`, `Particles`, `SoundCodec`, `LoginEncryption`.
- `EnchantmentTypes`: the registry.
- Text components:
  - `NbtTags`: NBT values and the typed lookups.
  - `AdventureNbt`: the serializer itself.
- `BungeeDecoder`: the proxy decoder.

The serializer treats some library parsing as parameters of a `Serializer` record: resource keys, block positions, colours, and Java's float-to-int narrowing. A component that is *canonical* holds only values those parsers give back unchanged. Registries are parameters too. A `Registry` is a pair of functions, id-of and by-id, and the round-trip lemmas assume the two are inverse.

## Model

| member | source | states |
|---|---|---|
| Wrapper.PacketWrapper.constructor | src/main/java/io/github/retrooper/packetevents/wrapper/PacketWrapper.java:30-36 | the wrapper keeps the version and buffer it was given; both fields are constant |
| Wrapper.PacketWrapper.CreateUniversalPacketWrapper | src/main/java/io/github/retrooper/packetevents/wrapper/PacketWrapper.java:111-113 | the new wrapper is bound to version UNKNOWN and to the given buffer |
| Wrapper.ReadStringAt | src/main/java/io/github/retrooper/packetevents/wrapper/PacketWrapper.java:62-81 | the cursor never moves backwards or past the end; a returned string has at most maxLen UTF-16 units and consumed at least one byte |
| Wrapper.LengthCheckedBeforePayload | src/main/java/io/github/retrooper/packetevents/wrapper/PacketWrapper.java:63-67 | a length prefix above maxLen*4, or a negative one, fails with the matching error right after the prefix; no payload byte is consumed |
| Wrapper.SuccessConsumesPrefixAndPayload | src/main/java/io/github/retrooper/packetevents/wrapper/PacketWrapper.java:63-80 | a successful read consumed exactly the VarInt prefix plus j bytes; the string is their UTF-8 decoding and at most maxLen long |
| Wrapper.ReadStringAccepts | src/main/java/io/github/retrooper/packetevents/wrapper/PacketWrapper.java:63-80 | conversely, a length within bounds whose payload decodes to a string of at most maxLen units reads as that string |
| Wrapper.EncodedLimitExact | src/main/java/io/github/retrooper/packetevents/wrapper/PacketWrapper.java:64 | the int32 bound maxLen*4 equals the mathematical product for every maxLen below 2^29 |
| Wrapper.ReadEncodeString | src/main/java/io/github/retrooper/packetevents/wrapper/PacketWrapper.java:62-81 | a string of at most maxLen units, written as VarInt length plus UTF-8, reads back unchanged and the cursor ends after it |
| Wrapper.PacketWrapper.ReadString | src/main/java/io/github/retrooper/packetevents/wrapper/PacketWrapper.java:62-81 | the method returns what ReadStringAt says and leaves the reader index where ReadStringAt ends |
| Wrapper.PacketWrapper.ReadStringDefault | src/main/java/io/github/retrooper/packetevents/wrapper/PacketWrapper.java:58-60 | readString() is readString(32767) |
| Wrapper.PacketWrapper.ReadByteArray | src/main/java/io/github/retrooper/packetevents/wrapper/PacketWrapper.java:99-103 | the read succeeds exactly when length bytes remain; it returns a fresh array holding exactly the next length bytes and advances the cursor by length |
| Wrapper.PacketWrapper.ReadUUID | src/main/java/io/github/retrooper/packetevents/wrapper/PacketWrapper.java:105-109 | the most significant long is read first, then the least significant; the UUID carries them in that order and the cursor moves 16 bytes |
| Wrapper.PacketWrapper.ReadVarInt | src/main/java/io/github/retrooper/packetevents/wrapper/PacketWrapper.java:54-56 | the value and new cursor are those of the VarInt codec; on failure the cursor does not move |
| Wrapper.PacketWrapper.ReadByte | src/main/java/io/github/retrooper/packetevents/wrapper/PacketWrapper.java:46-48 | one signed byte is read and the cursor advances by one |
| Wrapper.PacketWrapper.ReadInt | src/main/java/io/github/retrooper/packetevents/wrapper/PacketWrapper.java:50-52 | a big-endian int is read and the cursor advances by four |
| Wrapper.PacketWrapper.ReadUnsignedShort | src/main/java/io/github/retrooper/packetevents/wrapper/PacketWrapper.java:83-85 | an unsigned big-endian short is read and the cursor advances by two |
| Wrapper.PacketWrapper.ReadShort | src/main/java/io/github/retrooper/packetevents/wrapper/PacketWrapper.java:87-89 | a signed big-endian short is read and the cursor advances by two |
| Wrapper.PacketWrapper.ReadLong | src/main/java/io/github/retrooper/packetevents/wrapper/PacketWrapper.java:91-93 | a big-endian long is read and the cursor advances by eight |
| Wrapper.PacketWrapper.ReadBoolean | src/main/java/io/github/retrooper/packetevents/wrapper/PacketWrapper.java:95-97 | one byte is read as a boolean and the cursor advances by one |
| Wire.ReadEncodeVarInt | src/main/java/io/github/retrooper/packetevents/wrapper/PacketWrapper.java:54-56 | every int32 written as a VarInt reads back as itself, ending after the written bytes |
| Wire.SixGroupsRefused | src/main/java/io/github/retrooper/packetevents/wrapper/PacketWrapper.java:54-56 | a VarInt whose first five bytes all carry the continuation bit is rejected |
| Wire.ReadEncodeUUID | src/main/java/io/github/retrooper/packetevents/wrapper/PacketWrapper.java:105-109 | a UUID written as two big-endian longs reads back as itself |
| Utf8.DecodeEncode | src/main/java/io/github/retrooper/packetevents/wrapper/PacketWrapper.java:77 | decoding the UTF-8 encoding of a string gives the string back |
| Utf8.EncodedLengthBound | src/main/java/io/github/retrooper/packetevents/wrapper/PacketWrapper.java:64 | a string of n UTF-16 units encodes to at most 3n UTF-8 bytes, so every string within maxLen fits the maxLen*4 byte bound |
| Versions.OlderIsNotNewerOrEqual | api/src/main/java/com/github/retrooper/packetevents/protocol/particle/data/ParticleDustColorTransitionData.java:121-127 | isOlderThan(v) is exactly the negation of isNewerThanOrEquals(v) |
| Codec.ReadEncodeIdentifier | api/src/main/java/com/github/retrooper/packetevents/protocol/sound/Sound.java:38 | an identifier written by writeIdentifier reads back as itself |
| Codec.ReadEncodeOptionalFloat | api/src/main/java/com/github/retrooper/packetevents/protocol/sound/Sound.java:39 | an optional float, written as a presence flag and the float, reads back as itself |
| Codec.ReadOptionalFloatAt | api/src/main/java/com/github/retrooper/packetevents/protocol/sound/Sound.java:39 | the value is present exactly when the flag byte is non-zero |
| Codec.ReadMappedEntityAt | api/src/main/java/com/github/retrooper/packetevents/protocol/particle/Particle.java:42 | the read succeeds exactly when a VarInt id is present and the registry knows it |
| Codec.ReadEncodeMappedEntity | api/src/main/java/com/github/retrooper/packetevents/protocol/particle/Particle.java:42-47 | given an inverse registry, an entity written as its id reads back as itself |
| Codec.TruncateToShort | api/src/main/java/com/github/retrooper/packetevents/wrapper/play/server/WrapperPlayServerUpdateAttributes.java:148 | writeShort keeps the low 16 bits of an int; values that fit are unchanged |
| Codec.TruncateToByte | api/src/main/java/com/github/retrooper/packetevents/wrapper/play/server/WrapperPlayServerUpdateAttributes.java:155 | writeByte keeps the low 8 bits of an int; values that fit are unchanged |
| Codec.PacketWrapper.ReadVarInt | api/src/main/java/com/github/retrooper/packetevents/wrapper/play/server/WrapperPlayServerUpdateAttributes.java:83 | readVarInt returns the VarInt decoded at the reader index and moves the reader index past the value on success and leaves it on failure (see also lines 88, 96, 108) |
| Codec.PacketWrapper.ReadInt | api/src/main/java/com/github/retrooper/packetevents/wrapper/play/server/WrapperPlayServerUpdateAttributes.java:81 | readInt returns the big-endian int at the reader index and moves the reader index past the value on success and leaves it on failure (see also line 90) |
| Codec.PacketWrapper.ReadShort | api/src/main/java/com/github/retrooper/packetevents/wrapper/play/server/WrapperPlayServerUpdateAttributes.java:106 | readShort returns the big-endian short at the reader index and moves the reader index past the value on success and leaves it on failure |
| Codec.PacketWrapper.ReadByte | api/src/main/java/com/github/retrooper/packetevents/wrapper/play/server/WrapperPlayServerUpdateAttributes.java:116 | readByte returns the signed byte at the reader index and moves the reader index past the value on success and leaves it on failure |
| Codec.PacketWrapper.ReadFloat | api/src/main/java/com/github/retrooper/packetevents/protocol/particle/data/ParticleDustColorTransitionData.java:117-128 | readFloat returns the four-byte float word at the reader index and moves the reader index past the value on success and leaves it on failure |
| Codec.PacketWrapper.ReadDouble | api/src/main/java/com/github/retrooper/packetevents/wrapper/play/server/WrapperPlayServerUpdateAttributes.java:103 | readDouble returns the eight-byte double word at the reader index and moves the reader index past the value on success and leaves it on failure (see also line 115) |
| Codec.PacketWrapper.ReadUUID | api/src/main/java/com/github/retrooper/packetevents/wrapper/play/server/WrapperPlayServerUpdateAttributes.java:112 | readUUID returns the two longs at the reader index as a UUID and moves the reader index past the value on success and leaves it on failure |
| Codec.PacketWrapper.ReadString | api/src/main/java/com/github/retrooper/packetevents/wrapper/play/server/WrapperPlayServerUpdateAttributes.java:100 | readString(maxLen) returns what the bounded string reader decodes and moves the reader index past it |
| Codec.ReadIdentifierAt | api/src/main/java/com/github/retrooper/packetevents/protocol/sound/Sound.java:38 | an identifier read is a string of at most 32767 characters and consumes at least one byte |
| Codec.PacketWrapper.ReadIdentifier | api/src/main/java/com/github/retrooper/packetevents/protocol/sound/Sound.java:38 | readIdentifier returns ReadIdentifierAt's identifier and moves the reader index past the value on success and leaves it on failure |
| Codec.PacketWrapper.ReadOptionalFloat | api/src/main/java/com/github/retrooper/packetevents/protocol/sound/Sound.java:39 | readOptional(readFloat) returns ReadOptionalFloatAt's value and moves the reader index past the value on success and leaves it on failure |
| Codec.PacketWrapper.ReadMappedEntity | api/src/main/java/com/github/retrooper/packetevents/protocol/particle/Particle.java:42 | readMappedEntity returns the registry entry of the VarInt id for the wrapper's client version and moves the reader index past the value on success and leaves it on failure |
| Codec.PacketWrapper.WriteVarInt | api/src/main/java/com/github/retrooper/packetevents/wrapper/play/server/WrapperPlayServerUpdateAttributes.java:129 | writeVarInt appends the VarInt encoding and leaves the reader index (see also lines 133, 139, 150) |
| Codec.PacketWrapper.WriteInt | api/src/main/java/com/github/retrooper/packetevents/wrapper/play/server/WrapperPlayServerUpdateAttributes.java:127 | writeInt appends four big-endian bytes and leaves the reader index (see also line 135) |
| Codec.PacketWrapper.WriteShort | api/src/main/java/com/github/retrooper/packetevents/wrapper/play/server/WrapperPlayServerUpdateAttributes.java:148 | writeShort appends the low 16 bits of the int and leaves the reader index |
| Codec.PacketWrapper.WriteByte | api/src/main/java/com/github/retrooper/packetevents/wrapper/play/server/WrapperPlayServerUpdateAttributes.java:155 | writeByte appends the low 8 bits of the int and leaves the reader index |
| Codec.PacketWrapper.WriteFloat | api/src/main/java/com/github/retrooper/packetevents/protocol/particle/data/ParticleDustColorTransitionData.java:134-144 | writeFloat appends the float word and leaves the reader index |
| Codec.PacketWrapper.WriteDouble | api/src/main/java/com/github/retrooper/packetevents/wrapper/play/server/WrapperPlayServerUpdateAttributes.java:146 | writeDouble appends the double word and leaves the reader index (see also line 154) |
| Codec.PacketWrapper.WriteUUID | api/src/main/java/com/github/retrooper/packetevents/wrapper/play/server/WrapperPlayServerUpdateAttributes.java:153 | writeUUID appends the most and then the least significant long and leaves the reader index |
| Codec.PacketWrapper.WriteString | api/src/main/java/com/github/retrooper/packetevents/wrapper/play/server/WrapperPlayServerUpdateAttributes.java:143 | writeString appends the VarInt byte length and the UTF-8 bytes and leaves the reader index |
| Codec.PacketWrapper.WriteIdentifier | api/src/main/java/com/github/retrooper/packetevents/wrapper/play/server/WrapperPlayServerUpdateAttributes.java:141 | writeIdentifier appends the identifier as a string and leaves the reader index |
| Codec.PacketWrapper.WriteOptionalFloat | api/src/main/java/com/github/retrooper/packetevents/protocol/sound/Sound.java:49 | writeOptional(writeFloat) appends a presence flag and, when present, the float |
| Codec.PacketWrapper.WriteMappedEntity | api/src/main/java/com/github/retrooper/packetevents/protocol/particle/Particle.java:47 | writeMappedEntity appends the entity's VarInt id for the wrapper's client version |
| UpdateAttributes.LegacyKeysDistinct | api/src/main/java/com/github/retrooper/packetevents/wrapper/play/server/WrapperPlayServerUpdateAttributes.java:39-60 | no name is listed twice in the legacy table, so the forward map's toMap does not throw |
| UpdateAttributes.ForwardMapLookup | api/src/main/java/com/github/retrooper/packetevents/wrapper/play/server/WrapperPlayServerUpdateAttributes.java:59-60 | with distinct names, each listed name maps to its own attribute |
| UpdateAttributes.ForwardMapKeys | api/src/main/java/com/github/retrooper/packetevents/wrapper/play/server/WrapperPlayServerUpdateAttributes.java:59-60 | the forward map's keys are exactly the listed names |
| UpdateAttributes.ReverseMapValue | api/src/main/java/com/github/retrooper/packetevents/wrapper/play/server/WrapperPlayServerUpdateAttributes.java:61-63 | every reverse-map entry is a listed (name, attribute) pair |
| UpdateAttributes.ReverseMapFirst | api/src/main/java/com/github/retrooper/packetevents/wrapper/play/server/WrapperPlayServerUpdateAttributes.java:61-63 | the reverse map keeps the first name listed for an attribute (merge (s1, s2) -> s1) |
| UpdateAttributes.ReverseThenForward | api/src/main/java/com/github/retrooper/packetevents/wrapper/play/server/WrapperPlayServerUpdateAttributes.java:59-63 | the name the reverse map gives an attribute leads back to that attribute through the forward map |
| UpdateAttributes.MaxHealthNames | api/src/main/java/com/github/retrooper/packetevents/wrapper/play/server/WrapperPlayServerUpdateAttributes.java:40-41 | both "generic.maxHealth" and "Max Health" map to GENERIC_MAX_HEALTH, which maps back to "generic.maxHealth" |
| UpdateAttributes.EveryLegacyNameAccepted | api/src/main/java/com/github/retrooper/packetevents/wrapper/play/server/WrapperPlayServerUpdateAttributes.java:39-60 | every listed name, both spellings included, is a key of the forward map and maps to its attribute |
| UpdateAttributes.LegacyNamesShort | api/src/main/java/com/github/retrooper/packetevents/wrapper/play/server/WrapperPlayServerUpdateAttributes.java:39-58 | every legacy name is at most 32 characters, within readString(64) |
| UpdateAttributes.LegacyNameWritable | api/src/main/java/com/github/retrooper/packetevents/wrapper/play/server/WrapperPlayServerUpdateAttributes.java:100 | the reverse-map name of an attribute fits the 64-character bound of the legacy read (see also line 143) |
| UpdateAttributes.Ordinal | api/src/main/java/com/github/retrooper/packetevents/wrapper/play/server/WrapperPlayServerUpdateAttributes.java:155 | ordinal() is an index into VALUES holding the operation itself (see also lines 183-189) |
| UpdateAttributes.OperationAt | api/src/main/java/com/github/retrooper/packetevents/wrapper/play/server/WrapperPlayServerUpdateAttributes.java:116-117 | VALUES[index] exists exactly for 0..2, and the operation found has that ordinal (see also line 188) |
| UpdateAttributes.ReadModifierAt | api/src/main/java/com/github/retrooper/packetevents/wrapper/play/server/WrapperPlayServerUpdateAttributes.java:112-118 | a modifier is UUID, amount and operation byte: exactly 25 bytes |
| UpdateAttributes.ReadAttributeAt | api/src/main/java/com/github/retrooper/packetevents/wrapper/play/server/WrapperPlayServerUpdateAttributes.java:94-101 | a successful attribute read consumes at least one byte and stays in the buffer |
| UpdateAttributes.ReadModifierCountAt | api/src/main/java/com/github/retrooper/packetevents/wrapper/play/server/WrapperPlayServerUpdateAttributes.java:104-109 | a successful count read consumes at least one byte and stays in the buffer |
| UpdateAttributes.ReadModifiersAt | api/src/main/java/com/github/retrooper/packetevents/wrapper/play/server/WrapperPlayServerUpdateAttributes.java:110-119 | reading n modifiers yields exactly n, in wire order |
| UpdateAttributes.ReadPropertiesAt | api/src/main/java/com/github/retrooper/packetevents/wrapper/play/server/WrapperPlayServerUpdateAttributes.java:92-121 | reading n properties yields exactly n, in wire order |
| UpdateAttributes.ReadEntityIdAt | api/src/main/java/com/github/retrooper/packetevents/wrapper/play/server/WrapperPlayServerUpdateAttributes.java:80-84 | the entity id (an int on 1.7.10, a VarInt otherwise) consumes at least one byte and stays in the buffer |
| UpdateAttributes.ReadPropertyCountAt | api/src/main/java/com/github/retrooper/packetevents/wrapper/play/server/WrapperPlayServerUpdateAttributes.java:86-91 | the property count (a VarInt from 1.17, an int before) consumes at least one byte and stays in the buffer |
| UpdateAttributes.ReadModifierListAt | api/src/main/java/com/github/retrooper/packetevents/wrapper/play/server/WrapperPlayServerUpdateAttributes.java:104-119 | a modifier list read (count, then that many modifiers) consumes at least one byte and stays in the buffer |
| UpdateAttributes.ReadPropertyAt | api/src/main/java/com/github/retrooper/packetevents/wrapper/play/server/WrapperPlayServerUpdateAttributes.java:94-120 | a property read (attribute, value, modifier list) consumes at least one byte and stays in the buffer |
| UpdateAttributes.EncodeModifier | api/src/main/java/com/github/retrooper/packetevents/wrapper/play/server/WrapperPlayServerUpdateAttributes.java:152-156 | every modifier is written in exactly 25 bytes |
| UpdateAttributes.ReadPacketAt | api/src/main/java/com/github/retrooper/packetevents/wrapper/play/server/WrapperPlayServerUpdateAttributes.java:79-122 | a successful packet read consumes at least one byte and stays in the buffer |
| Lists.ReadListAt | api/src/main/java/com/github/retrooper/packetevents/wrapper/play/server/WrapperPlayServerUpdateAttributes.java:93 | a counted loop of n element reads yields exactly n elements, and none for n = 0 (see also line 111) |
| Lists.ReadListFailureSticks | api/src/main/java/com/github/retrooper/packetevents/wrapper/play/server/WrapperPlayServerUpdateAttributes.java:93-121 | once the first i element reads fail, reading any n ≥ i elements fails too |
| UpdateAttributes.ReadPacketCounts | api/src/main/java/com/github/retrooper/packetevents/wrapper/play/server/WrapperPlayServerUpdateAttributes.java:80-93 | a read packet holds exactly as many properties as its decoded count |
| UpdateAttributes.UnknownLegacyNameIsNull | api/src/main/java/com/github/retrooper/packetevents/wrapper/play/server/WrapperPlayServerUpdateAttributes.java:100 | before 1.16, a readable name missing from the legacy map gives a null attribute rather than an error |
| UpdateAttributes.ReadEncodeModifier | api/src/main/java/com/github/retrooper/packetevents/wrapper/play/server/WrapperPlayServerUpdateAttributes.java:112-118 | a modifier written as UUID, amount, ordinal byte reads back as itself (see also lines 153-155) |
| UpdateAttributes.ReadEncodeAttribute | api/src/main/java/com/github/retrooper/packetevents/wrapper/play/server/WrapperPlayServerUpdateAttributes.java:95-101 | the attribute reads back as written, by registry id from 1.20.5, by identifier from 1.16, by legacy name before (see also lines 138-144) |
| UpdateAttributes.ReadEncodeAttributeById | api/src/main/java/com/github/retrooper/packetevents/wrapper/play/server/WrapperPlayServerUpdateAttributes.java:95-96 | from 1.20.5 the attribute's registry id reads back as the attribute (see also lines 138-139) |
| UpdateAttributes.ReadEncodeAttributeByName | api/src/main/java/com/github/retrooper/packetevents/wrapper/play/server/WrapperPlayServerUpdateAttributes.java:97-98 | from 1.16 the attribute's identifier reads back as the attribute (see also lines 140-141) |
| UpdateAttributes.ReadEncodeAttributeLegacy | api/src/main/java/com/github/retrooper/packetevents/wrapper/play/server/WrapperPlayServerUpdateAttributes.java:100 | before 1.16 the reverse-map name reads back through the forward map as the attribute (see also line 143) |
| UpdateAttributes.ReadEncodeModifierCount | api/src/main/java/com/github/retrooper/packetevents/wrapper/play/server/WrapperPlayServerUpdateAttributes.java:104-109 | the modifier count, a short on 1.7.10 and a VarInt otherwise, reads back as written (see also lines 147-151) |
| UpdateAttributes.ReadEncodeModifiers | api/src/main/java/com/github/retrooper/packetevents/wrapper/play/server/WrapperPlayServerUpdateAttributes.java:111-119 | a list of modifiers written in order reads back as the same list (see also lines 152-156) |
| UpdateAttributes.ReadEncodeModifierList | api/src/main/java/com/github/retrooper/packetevents/wrapper/play/server/WrapperPlayServerUpdateAttributes.java:104-119 | the count and then the modifiers read back as the written list (see also lines 147-156) |
| UpdateAttributes.ReadEncodeProperty | api/src/main/java/com/github/retrooper/packetevents/wrapper/play/server/WrapperPlayServerUpdateAttributes.java:94-120 | a property (attribute, value, modifiers) reads back as written (see also lines 138-156) |
| UpdateAttributes.PropertyReadsBack | api/src/main/java/com/github/retrooper/packetevents/wrapper/play/server/WrapperPlayServerUpdateAttributes.java:94-120 | the property reader inverts the property writer at every buffer position (see also lines 138-156) |
| UpdateAttributes.ReadEncodeProperties | api/src/main/java/com/github/retrooper/packetevents/wrapper/play/server/WrapperPlayServerUpdateAttributes.java:93-121 | a list of properties written in order reads back as the same list (see also lines 137-157) |
| UpdateAttributes.ReadEncodePacketHead | api/src/main/java/com/github/retrooper/packetevents/wrapper/play/server/WrapperPlayServerUpdateAttributes.java:80-91 | the entity id (int on 1.7.10, VarInt otherwise) and the property count (VarInt from 1.17, int before) read back as written (see also lines 126-136) |
| UpdateAttributes.ReadEncodePacket | api/src/main/java/com/github/retrooper/packetevents/wrapper/play/server/WrapperPlayServerUpdateAttributes.java:79-158 | for every server version, the whole packet written by write() is read back by read() as the same entity id and properties |
| Lists.ReadEncodeList | api/src/main/java/com/github/retrooper/packetevents/wrapper/play/server/WrapperPlayServerUpdateAttributes.java:93-121 | a counted loop of element reads inverts the loop of element writes (see also lines 137-157) |
| UpdateAttributesPacket.WrapperPlayServerUpdateAttributes.constructor | api/src/main/java/com/github/retrooper/packetevents/wrapper/play/server/WrapperPlayServerUpdateAttributes.java:72-76 | the packet holds the given entity id and properties |
| UpdateAttributesPacket.WrapperPlayServerUpdateAttributes.SetEntityId | api/src/main/java/com/github/retrooper/packetevents/wrapper/play/server/WrapperPlayServerUpdateAttributes.java:170-172 | only the entity id changes |
| UpdateAttributesPacket.WrapperPlayServerUpdateAttributes.SetProperties | api/src/main/java/com/github/retrooper/packetevents/wrapper/play/server/WrapperPlayServerUpdateAttributes.java:178-180 | only the properties change |
| UpdateAttributesPacket.WrapperPlayServerUpdateAttributes.Copy | api/src/main/java/com/github/retrooper/packetevents/wrapper/play/server/WrapperPlayServerUpdateAttributes.java:161-164 | both fields take the other packet's values |
| UpdateAttributesPacket.WrapperPlayServerUpdateAttributes.Read | api/src/main/java/com/github/retrooper/packetevents/wrapper/play/server/WrapperPlayServerUpdateAttributes.java:79-122 | the loops leave in the fields exactly what ReadPacketAt decodes, and leave the cursor where it ends |
| UpdateAttributesPacket.WrapperPlayServerUpdateAttributes.Write | api/src/main/java/com/github/retrooper/packetevents/wrapper/play/server/WrapperPlayServerUpdateAttributes.java:125-158 | the loops append exactly EncodePacket of the fields, so ReadEncodePacket applies to what is written |
| UpdateAttributesPacket.WrapperPlayServerUpdateAttributes.ReadEntityId | api/src/main/java/com/github/retrooper/packetevents/wrapper/play/server/WrapperPlayServerUpdateAttributes.java:80-84 | the method yields ReadEntityIdAt's id and moves the cursor as it says |
| UpdateAttributesPacket.WrapperPlayServerUpdateAttributes.ReadPropertyCount | api/src/main/java/com/github/retrooper/packetevents/wrapper/play/server/WrapperPlayServerUpdateAttributes.java:86-91 | the method yields ReadPropertyCountAt's count and moves the cursor as it says |
| UpdateAttributesPacket.WrapperPlayServerUpdateAttributes.ReadAttribute | api/src/main/java/com/github/retrooper/packetevents/wrapper/play/server/WrapperPlayServerUpdateAttributes.java:94-101 | the method yields ReadAttributeAt's attribute and moves the cursor as it says |
| UpdateAttributesPacket.WrapperPlayServerUpdateAttributes.ReadProperty | api/src/main/java/com/github/retrooper/packetevents/wrapper/play/server/WrapperPlayServerUpdateAttributes.java:94-120 | the method yields ReadPropertyAt's property and moves the cursor as it says |
| UpdateAttributesPacket.WrapperPlayServerUpdateAttributes.ReadModifierList | api/src/main/java/com/github/retrooper/packetevents/wrapper/play/server/WrapperPlayServerUpdateAttributes.java:104-119 | the method yields ReadModifierListAt's list and moves the cursor as it says |
| UpdateAttributesPacket.WrapperPlayServerUpdateAttributes.ReadModifier | api/src/main/java/com/github/retrooper/packetevents/wrapper/play/server/WrapperPlayServerUpdateAttributes.java:112-118 | the method yields ReadModifierAt's modifier and moves the cursor as it says |
| UpdateAttributesPacket.WrapperPlayServerUpdateAttributes.WriteAttribute | api/src/main/java/com/github/retrooper/packetevents/wrapper/play/server/WrapperPlayServerUpdateAttributes.java:138-144 | the attribute's id, identifier or legacy name is appended, as the version demands |
| UpdateAttributesPacket.WrapperPlayServerUpdateAttributes.WriteProperty | api/src/main/java/com/github/retrooper/packetevents/wrapper/play/server/WrapperPlayServerUpdateAttributes.java:138-156 | the property's encoding is appended |
| UpdateAttributesPacket.WrapperPlayServerUpdateAttributes.WriteModifier | api/src/main/java/com/github/retrooper/packetevents/wrapper/play/server/WrapperPlayServerUpdateAttributes.java:153-155 | the modifier's 25-byte encoding is appended |
| UpdateAttributesPacket.WrapperPlayServerUpdateAttributes.ReadProperties | api/src/main/java/com/github/retrooper/packetevents/wrapper/play/server/WrapperPlayServerUpdateAttributes.java:92-121 | the outer loop yields ReadPropertiesAt of the count, failing when any property fails |
| UpdateAttributesPacket.WrapperPlayServerUpdateAttributes.ReadModifiers | api/src/main/java/com/github/retrooper/packetevents/wrapper/play/server/WrapperPlayServerUpdateAttributes.java:110-119 | the inner loop yields ReadModifiersAt of the count |
| UpdateAttributesPacket.WrapperPlayServerUpdateAttributes.WriteProperties | api/src/main/java/com/github/retrooper/packetevents/wrapper/play/server/WrapperPlayServerUpdateAttributes.java:137-157 | the loop appends the encodings of the properties in list order |
| UpdateAttributesPacket.WrapperPlayServerUpdateAttributes.WriteModifierList | api/src/main/java/com/github/retrooper/packetevents/wrapper/play/server/WrapperPlayServerUpdateAttributes.java:147-156 | the count and then each modifier's encoding are appended in list order |
| DustColorTransition.ReadEncode | api/src/main/java/com/github/retrooper/packetevents/protocol/particle/data/ParticleDustColorTransitionData.java:116-146 | for every version, read after write gives back the same seven fields and consumes 28 bytes |
| DustColorTransition.EncodeIsSevenFloats | api/src/main/java/com/github/retrooper/packetevents/protocol/particle/data/ParticleDustColorTransitionData.java:133-146 | write emits exactly seven floats for every version, because the two gates are complementary |
| DustColorTransition.ReadIsSevenFloats | api/src/main/java/com/github/retrooper/packetevents/protocol/particle/data/ParticleDustColorTransitionData.java:116-131 | read succeeds exactly when 28 bytes remain, and consumes exactly 28 |
| DustColorTransition.ScalePosition | api/src/main/java/com/github/retrooper/packetevents/protocol/particle/data/ParticleDustColorTransitionData.java:120-129 | the scale is the fourth float before 1.20.5 and the seventh from 1.20.5 on |
| DustColorTransition.ReadEncodeRGB | api/src/main/java/com/github/retrooper/packetevents/protocol/particle/data/ParticleDustColorTransitionData.java:117-119 | three floats written in order read back as the same colour (see also lines 134-136) |
| DustColorTransition.FloatToChannelInverse | api/src/main/java/com/github/retrooper/packetevents/protocol/particle/data/ParticleDustColorTransitionData.java:56-58 | widening a 0..255 channel to float is exact and loses nothing |
| DustColorTransition.ParticleDustColorTransitionData.constructor | api/src/main/java/com/github/retrooper/packetevents/protocol/particle/data/ParticleDustColorTransitionData.java:40-50 | the seven fields take the seven arguments |
| DustColorTransition.ParticleDustColorTransitionData.FromVectors | api/src/main/java/com/github/retrooper/packetevents/protocol/particle/data/ParticleDustColorTransitionData.java:52-54 | x, y, z of each vector become red, green, blue of the start and end colours |
| DustColorTransition.ParticleDustColorTransitionData.FromColors | api/src/main/java/com/github/retrooper/packetevents/protocol/particle/data/ParticleDustColorTransitionData.java:56-58 | red, green, blue of each colour, widened to float, become the start and end components |
| DustColorTransition.ParticleDustColorTransitionData.SetScale | api/src/main/java/com/github/retrooper/packetevents/protocol/particle/data/ParticleDustColorTransitionData.java:64-66 | only the scale changes |
| DustColorTransition.ParticleDustColorTransitionData.SetStartRed | api/src/main/java/com/github/retrooper/packetevents/protocol/particle/data/ParticleDustColorTransitionData.java:72-74 | only startRed changes |
| DustColorTransition.ParticleDustColorTransitionData.SetStartGreen | api/src/main/java/com/github/retrooper/packetevents/protocol/particle/data/ParticleDustColorTransitionData.java:80-82 | only startGreen changes |
| DustColorTransition.ParticleDustColorTransitionData.SetStartBlue | api/src/main/java/com/github/retrooper/packetevents/protocol/particle/data/ParticleDustColorTransitionData.java:88-90 | only startBlue changes |
| DustColorTransition.ParticleDustColorTransitionData.SetEndRed | api/src/main/java/com/github/retrooper/packetevents/protocol/particle/data/ParticleDustColorTransitionData.java:96-98 | only endRed changes |
| DustColorTransition.ParticleDustColorTransitionData.SetEndGreen | api/src/main/java/com/github/retrooper/packetevents/protocol/particle/data/ParticleDustColorTransitionData.java:104-106 | only endGreen changes |
| DustColorTransition.ParticleDustColorTransitionData.SetEndBlue | api/src/main/java/com/github/retrooper/packetevents/protocol/particle/data/ParticleDustColorTransitionData.java:112-114 | only endBlue changes |
| DustColorTransition.ParticleDustColorTransitionData.IsEmpty | api/src/main/java/com/github/retrooper/packetevents/protocol/particle/data/ParticleDustColorTransitionData.java:148-151 | the data is never empty |
| DustColorTransition.ReadRGBAt | api/src/main/java/com/github/retrooper/packetevents/protocol/particle/data/ParticleDustColorTransitionData.java:117-119 | three floats are read exactly when 12 bytes remain, and they consume exactly 12 |
| DustColorTransition.ParticleDustColorTransitionData.ReadRGB | api/src/main/java/com/github/retrooper/packetevents/protocol/particle/data/ParticleDustColorTransitionData.java:117-119 | the three float reads yield ReadRGBAt's colour and move the cursor 12 bytes |
| DustColorTransition.ParticleDustColorTransitionData.ReadScale | api/src/main/java/com/github/retrooper/packetevents/protocol/particle/data/ParticleDustColorTransitionData.java:120-129 | when the gate holds the scale is a float read at the cursor; otherwise the default is kept and the cursor stays |
| DustColorTransition.ParticleDustColorTransitionData.WriteRGB | api/src/main/java/com/github/retrooper/packetevents/protocol/particle/data/ParticleDustColorTransitionData.java:134-136 | the three components are appended in order |
| DustColorTransition.ParticleDustColorTransitionData.WriteScale | api/src/main/java/com/github/retrooper/packetevents/protocol/particle/data/ParticleDustColorTransitionData.java:137-145 | the scale is appended exactly when the gate holds |
| DustColorTransition.ParticleDustColorTransitionData.Read | api/src/main/java/com/github/retrooper/packetevents/protocol/particle/data/ParticleDustColorTransitionData.java:116-131 | the sequence of float reads yields the fields of ReadAt for the wrapper's version and moves the cursor as ReadAt does |
| DustColorTransition.ParticleDustColorTransitionData.Write | api/src/main/java/com/github/retrooper/packetevents/protocol/particle/data/ParticleDustColorTransitionData.java:133-146 | the sequence of float writes appends exactly Encode of the fields for the wrapper's version |
| Particles.ReadAt | api/src/main/java/com/github/retrooper/packetevents/protocol/particle/Particle.java:40-44 | the type is the mapped entity read first; the data read after it fits that type |
| Particles.ReadEncode | api/src/main/java/com/github/retrooper/packetevents/protocol/particle/Particle.java:40-49 | a particle written as mapped type then data reads back as the same type and data |
| Particles.ReadEncodeData | api/src/main/java/com/github/retrooper/packetevents/protocol/particle/Particle.java:43 | the type's data reads back as written (see also line 48) |
| Particles.Particle.constructor | api/src/main/java/com/github/retrooper/packetevents/protocol/particle/Particle.java:31-34 | the particle holds the given type and data |
| Particles.Particle.OfType | api/src/main/java/com/github/retrooper/packetevents/protocol/particle/Particle.java:36-38 | the one-argument constructor attaches empty data |
| Particles.Particle.SetType | api/src/main/java/com/github/retrooper/packetevents/protocol/particle/Particle.java:55-57 | only the type changes |
| Particles.Particle.SetData | api/src/main/java/com/github/retrooper/packetevents/protocol/particle/Particle.java:63-65 | only the data changes |
| Particles.ReadDataAt | api/src/main/java/com/github/retrooper/packetevents/protocol/particle/Particle.java:43 | the data read fits the particle type and the cursor does not move backwards |
| Particles.Particle.ReadData | api/src/main/java/com/github/retrooper/packetevents/protocol/particle/Particle.java:43 | type.readData yields ReadDataAt's data and moves the cursor as it says |
| Particles.Particle.WriteData | api/src/main/java/com/github/retrooper/packetevents/protocol/particle/Particle.java:48 | type.writeData appends EncodeData of the data |
| Particles.Particle.Read | api/src/main/java/com/github/retrooper/packetevents/protocol/particle/Particle.java:40-44 | the particle read is ReadAt's, and the cursor moves as ReadAt says |
| Particles.Particle.Write | api/src/main/java/com/github/retrooper/packetevents/protocol/particle/Particle.java:46-49 | the bytes appended are the mapped type and then the type's data |
| SoundCodec.ReadDirectAt | api/src/main/java/com/github/retrooper/packetevents/protocol/sound/Sound.java:37-41 | a direct sound succeeds exactly when an identifier and then an optional range read; it carries exactly those two values |
| SoundCodec.ReadEncodeDirect | api/src/main/java/com/github/retrooper/packetevents/protocol/sound/Sound.java:37-41 | a sound written directly (identifier, optional range) reads back with the same id and range (see also lines 47-50) |
| SoundCodec.ReadAt | api/src/main/java/com/github/retrooper/packetevents/protocol/sound/Sound.java:33-35 | a non-zero VarInt id is looked up in the registry, id 0 falls back to the direct form |
| SoundCodec.ReadEncodeRegistered | api/src/main/java/com/github/retrooper/packetevents/protocol/sound/Sound.java:33-35 | a registered sound written as its id plus one reads back as itself (see also lines 43-45) |
| SoundCodec.ReadDirectFallback | api/src/main/java/com/github/retrooper/packetevents/protocol/sound/Sound.java:33-35 | id 0 followed by a direct sound reads as that direct sound |
| SoundCodec.ReadEncodeUnregistered | api/src/main/java/com/github/retrooper/packetevents/protocol/sound/Sound.java:43-50 | an unregistered sound, written as 0 and then directly, reads back as itself |
| SoundCodec.ReadEncode | api/src/main/java/com/github/retrooper/packetevents/protocol/sound/Sound.java:33-50 | write mirrors read: every sound reads back as itself |
| SoundCodec.ReadDirect | api/src/main/java/com/github/retrooper/packetevents/protocol/sound/Sound.java:37-41 | the method reads ReadDirectAt's sound and moves the cursor as it says |
| SoundCodec.Read | api/src/main/java/com/github/retrooper/packetevents/protocol/sound/Sound.java:33-35 | the method reads ReadAt's sound for the wrapper's client version |
| SoundCodec.WriteDirect | api/src/main/java/com/github/retrooper/packetevents/protocol/sound/Sound.java:47-50 | the identifier and then the optional range are appended |
| SoundCodec.Write | api/src/main/java/com/github/retrooper/packetevents/protocol/sound/Sound.java:43-45 | the mapped id, or 0 and the direct form, is appended |
| LoginEncryption.ReadPrefixedBytes | src/main/java/io/github/retrooper/packetevents/wrapper/login/server/WrapperLoginServerEncryptionRequest.java:45-46 | the bytes returned are exactly as many as the VarInt prefix says, taken from the cursor (see also lines 49-50) |
| LoginEncryption.ParseAt | src/main/java/io/github/retrooper/packetevents/wrapper/login/server/WrapperLoginServerEncryptionRequest.java:42-51 | a parsed server id has at most 20 characters (readString(20)); the cursor stays in the buffer |
| LoginEncryption.ReadEncodePrefixedBytes | src/main/java/io/github/retrooper/packetevents/wrapper/login/server/WrapperLoginServerEncryptionRequest.java:45-50 | a length-prefixed byte array reads back as itself |
| LoginEncryption.ParseSteps | src/main/java/io/github/retrooper/packetevents/wrapper/login/server/WrapperLoginServerEncryptionRequest.java:44-50 | the parse is server id, then key bytes, then verify token, in that order |
| LoginEncryption.ParseEncode | src/main/java/io/github/retrooper/packetevents/wrapper/login/server/WrapperLoginServerEncryptionRequest.java:42-51 | server id, key bytes and token, written in order, parse back; the key is the key factory's result for those bytes |
| LoginEncryption.KeyFailureDoesNotAbort | src/main/java/io/github/retrooper/packetevents/wrapper/login/server/WrapperLoginServerEncryptionRequest.java:81-90 | whether the parse succeeds, and its server id and token, do not depend on the key factory: a failed conversion only nulls the key |
| LoginEncryption.WrapperLoginServerEncryptionRequest.constructor | src/main/java/io/github/retrooper/packetevents/wrapper/login/server/WrapperLoginServerEncryptionRequest.java:38-40 | the final fields hold the values given and never change |
| LoginEncryption.WrapperLoginServerEncryptionRequest.ReadPrefixed | src/main/java/io/github/retrooper/packetevents/wrapper/login/server/WrapperLoginServerEncryptionRequest.java:45-46 | readVarInt then readByteArray of that length yields ReadPrefixedBytes's result |
| LoginEncryption.WrapperLoginServerEncryptionRequest.Read | src/main/java/io/github/retrooper/packetevents/wrapper/login/server/WrapperLoginServerEncryptionRequest.java:42-51 | the constructor's reads yield ParseAt's request and leave the cursor where ParseAt ends |
| EnchantmentTypes.NameInjective | api/src/main/java/com/github/retrooper/packetevents/protocol/item/enchantment/type/EnchantmentTypes.java:44-50 | two keys define the same name exactly when they are the same key |
| EnchantmentTypes.Define | api/src/main/java/com/github/retrooper/packetevents/protocol/item/enchantment/type/EnchantmentTypes.java:45 | the data defined for a key carries the key's namespaced name |
| EnchantmentTypes.Entry | api/src/main/java/com/github/retrooper/packetevents/protocol/item/enchantment/type/EnchantmentTypes.java:46-64 | the entry for a key is named after it; its id depends only on version, builder and its own data |
| EnchantmentTypes.IndexInBucket | api/src/main/java/com/github/retrooper/packetevents/protocol/item/enchantment/type/EnchantmentTypes.java:78 | a version's data index names the generation that contains it |
| EnchantmentTypes.IndexInMonotone | api/src/main/java/com/github/retrooper/packetevents/protocol/item/enchantment/type/EnchantmentTypes.java:78 | later versions never fall in an earlier data index |
| EnchantmentTypes.GenerationContiguous | api/src/main/java/com/github/retrooper/packetevents/protocol/item/enchantment/type/EnchantmentTypes.java:52-55 | an entry has the same id at every version between two versions of one generation (see also line 78) |
| EnchantmentTypes.WithIdsLookup | api/src/main/java/com/github/retrooper/packetevents/protocol/item/enchantment/type/EnchantmentTypes.java:66 | registering an entry adds it to exactly the indices where it has an id and leaves the others as they were |
| EnchantmentTypes.NamesOfLookup | api/src/main/java/com/github/retrooper/packetevents/protocol/item/enchantment/type/EnchantmentTypes.java:66 | once keys are defined, a name is mapped exactly when some key has it, and it maps to that key's entry (see also lines 83-90) |
| EnchantmentTypes.IdsOfInverse | api/src/main/java/com/github/retrooper/packetevents/protocol/item/enchantment/type/EnchantmentTypes.java:66 | every id a defined key has in an index finds that key's entry there (see also lines 77-81) |
| EnchantmentTypes.IdsOfSound | api/src/main/java/com/github/retrooper/packetevents/protocol/item/enchantment/type/EnchantmentTypes.java:66 | every id in an index's map was given in that index by some defined key (see also lines 77-81) |
| EnchantmentTypes.EnchantmentRegistry.constructor | api/src/main/java/com/github/retrooper/packetevents/protocol/item/enchantment/type/EnchantmentTypes.java:83-90 | the static initialiser leaves the maps of every key defined in order |
| EnchantmentTypes.EnchantmentRegistry.Define | api/src/main/java/com/github/retrooper/packetevents/protocol/item/enchantment/type/EnchantmentTypes.java:44-68 | the new entry goes into the name map under its name and into each index's id map under its id there; nothing else changes |
| EnchantmentTypes.SweepingRenamed | api/src/main/java/com/github/retrooper/packetevents/protocol/item/enchantment/type/EnchantmentTypes.java:33-38 | "minecraft:sweeping" and "minecraft:sweeping_edge" find the same entry, that of sweeping_edge (see also lines 71-74) |
| EnchantmentTypes.GetByNameDeclared | api/src/main/java/com/github/retrooper/packetevents/protocol/item/enchantment/type/EnchantmentTypes.java:71-74 | a name outside the rename table is found exactly when a declared key has it, and a missing name gives null |
| EnchantmentTypes.EqualsIsIdentity | api/src/main/java/com/github/retrooper/packetevents/protocol/item/enchantment/type/EnchantmentTypes.java:57-63 | two registered types are equal exactly when their names are, which is exactly when they are the same entry |
| EnchantmentTypes.GetByIdInverse | api/src/main/java/com/github/retrooper/packetevents/protocol/item/enchantment/type/EnchantmentTypes.java:52-55 | the id a declared type has at a version finds that type again (see also lines 77-81) |
| EnchantmentTypes.GetByIdSound | api/src/main/java/com/github/retrooper/packetevents/protocol/item/enchantment/type/EnchantmentTypes.java:77-81 | a type found by id at a version has that id at that version |
| NbtTags.Lookup | api/src/main/java/com/github/retrooper/packetevents/util/adventure/AdventureNBTSerializer.java:557-567 | an absent key yields nothing; a present key yields its tag |
| NbtTags.Require | api/src/main/java/com/github/retrooper/packetevents/util/adventure/AdventureNBTSerializer.java:640-646 | a tag is kept only when its type is the required one |
| NbtTags.Get | api/src/main/java/com/github/retrooper/packetevents/util/adventure/AdventureNBTSerializer.java:549-551 | a typed lookup returns the key's tag unchanged, and only with the required type (see also lines 640-646) |
| NbtTags.GetOutcomes | api/src/main/java/com/github/retrooper/packetevents/util/adventure/AdventureNBTSerializer.java:557-567 | absent key: null, callback not invoked; matching type: the tag; any other type: an error (see also lines 640-646) |
| NbtTags.AsString | api/src/main/java/com/github/retrooper/packetevents/util/adventure/AdventureNBTSerializer.java:640-646 | readUTF fails exactly when the tag is not a string, and otherwise gives its value |
| NbtTags.AsBoolean | api/src/main/java/com/github/retrooper/packetevents/util/adventure/AdventureNBTSerializer.java:437-439 | readBoolean needs a BYTE tag and reads non-zero as true |
| NbtTags.AsInt | api/src/main/java/com/github/retrooper/packetevents/util/adventure/AdventureNBTSerializer.java:640-646 | readInt fails exactly when the tag is not an INT, and otherwise gives its value |
| NbtTags.AsIntArray | api/src/main/java/com/github/retrooper/packetevents/util/adventure/AdventureNBTSerializer.java:640-646 | readIntArray fails exactly when the tag is not an INT_ARRAY, and otherwise gives its ints |
| NbtTags.BooleanTag | api/src/main/java/com/github/retrooper/packetevents/util/adventure/AdventureNBTSerializer.java:577-579 | a boolean is written as a BYTE that is non-zero exactly for true |
| NbtTags.WriteBooleanReadsBack | api/src/main/java/com/github/retrooper/packetevents/util/adventure/AdventureNBTSerializer.java:437-439 | a written boolean reads back as itself, and the other keys are untouched (see also lines 577-579) |
| AdventureNbt.TextOf | api/src/main/java/com/github/retrooper/packetevents/util/adventure/AdventureNBTSerializer.java:65-75 | strings are themselves, a BYTE below 2 is "true"/"false", other numbers give decimal text whose value is the number; any other tag fails |
| AdventureNbt.DecimalText | api/src/main/java/com/github/retrooper/packetevents/util/adventure/AdventureNBTSerializer.java:71 | the decimal text of an int is a well-formed decimal (optional '-', digits, no leading zero) whose value is the int, and starts with '-' exactly for negatives |
| AdventureNbt.Digits | api/src/main/java/com/github/retrooper/packetevents/util/adventure/AdventureNBTSerializer.java:71 | the digits of a natural number are non-empty, all decimal digits, read back as the number, and start with '0' only for zero itself |
| AdventureNbt.DigitsOfValue | api/src/main/java/com/github/retrooper/packetevents/util/adventure/AdventureNBTSerializer.java:71 | a digit string without a leading zero is the digit string of its own value |
| AdventureNbt.DecimalTextOfValue | api/src/main/java/com/github/retrooper/packetevents/util/adventure/AdventureNBTSerializer.java:71 | every well-formed decimal is the text of its own value, so the int-to-text map is a bijection onto well-formed decimals |
| AdventureNbt.Deserialize | api/src/main/java/com/github/retrooper/packetevents/util/adventure/AdventureNBTSerializer.java:48-62 | a string deserialises to a plain text component with that content; other non-compound tags succeed exactly when they are numbers |
| AdventureNbt.Serialize | api/src/main/java/com/github/retrooper/packetevents/util/adventure/AdventureNBTSerializer.java:143-149 | the result is a bare string exactly for an unstyled text component with no children, and a compound otherwise |
| AdventureNbt.KindTags | api/src/main/java/com/github/retrooper/packetevents/util/adventure/AdventureNBTSerializer.java:155-222 | the kind writes only kind keys |
| AdventureNbt.NestedTags | api/src/main/java/com/github/retrooper/packetevents/util/adventure/AdventureNBTSerializer.java:168-172 | the nested parts write only "with", "separator", "style" and "extra" (see also lines 188-190, 205-207, 224-232) |
| AdventureNbt.SerializeList | api/src/main/java/com/github/retrooper/packetevents/util/adventure/AdventureNBTSerializer.java:421-427 | a list of components gives a list of the same length |
| AdventureNbt.OptionalKeysOf | api/src/main/java/com/github/retrooper/packetevents/util/adventure/AdventureNBTSerializer.java:163-172 | "fallback", "interpret", "with", "separator", "style" and "extra" are written exactly when the part differs from its default (see also lines 200-207, 224-232) |
| AdventureNbt.ReadText | api/src/main/java/com/github/retrooper/packetevents/util/adventure/AdventureNBTSerializer.java:76-77 | the text is present exactly when "text" or "" is |
| AdventureNbt.ReadParsed | api/src/main/java/com/github/retrooper/packetevents/util/adventure/AdventureNBTSerializer.java:87-89 | an absent key is null; a present string is handed to the library parser, whose rejection fails |
| AdventureNbt.ContentKeysPresent | api/src/main/java/com/github/retrooper/packetevents/util/adventure/AdventureNBTSerializer.java:76-84 | each content key is read as present exactly when it is in the compound |
| AdventureNbt.PathKeysPresent | api/src/main/java/com/github/retrooper/packetevents/util/adventure/AdventureNBTSerializer.java:85-89 | each NBT-path key is read as present exactly when it is in the compound |
| AdventureNbt.KindPrecedence | api/src/main/java/com/github/retrooper/packetevents/util/adventure/AdventureNBTSerializer.java:95-130 | the kind read is the first present of text (or ""), translate, score, selector, keybind, nbt; an NBT kind is block, entity or storage, in that order |
| AdventureNbt.Interpret | api/src/main/java/com/github/retrooper/packetevents/util/adventure/AdventureNBTSerializer.java:86 | a stored flag is used as is; a missing flag fails as written and reads as false when corrected (see also lines 115, 119, 123) |
| AdventureNbt.DeserializeItems | api/src/main/java/com/github/retrooper/packetevents/util/adventure/AdventureNBTSerializer.java:410-419 | a list read succeeds with one component per tag |
| AdventureNbt.DeserializeStyle | api/src/main/java/com/github/retrooper/packetevents/util/adventure/AdventureNBTSerializer.java:239-240 | the empty compound reads as the empty style |
| AdventureNbt.ReadShowItem | api/src/main/java/com/github/retrooper/packetevents/util/adventure/AdventureNBTSerializer.java:269-279 | a string "contents" reads as count 1 with no NBT; otherwise "contents" must be a compound |
| AdventureNbt.ReadShowEntity | api/src/main/java/com/github/retrooper/packetevents/util/adventure/AdventureNBTSerializer.java:280-286 | the contents read as a show_entity event |
| AdventureNbt.SerializeHover | api/src/main/java/com/github/retrooper/packetevents/util/adventure/AdventureNBTSerializer.java:321-356 | an item is written as a bare string exactly when its count is 1 and it has no NBT |
| AdventureNbt.ClickActionOf | api/src/main/java/com/github/retrooper/packetevents/util/adventure/AdventureNBTSerializer.java:259 | a click action found by name has that name |
| AdventureNbt.HoverActionOf | api/src/main/java/com/github/retrooper/packetevents/util/adventure/AdventureNBTSerializer.java:266 | a hover action found by name has that name |
| AdventureNbt.SerializeUUID | api/src/main/java/com/github/retrooper/packetevents/util/adventure/AdventureNBTSerializer.java:399-406 | a UUID becomes exactly four ints |
| AdventureNbt.DeserializeUUID | api/src/main/java/com/github/retrooper/packetevents/util/adventure/AdventureNBTSerializer.java:389-397 | the read succeeds exactly when there are four ints |
| AdventureNbt.JoinHalves | api/src/main/java/com/github/retrooper/packetevents/util/adventure/AdventureNBTSerializer.java:394-395 | the long built from two ints has the first as its high half and the second as its low half |
| AdventureNbt.UUIDRoundTrip | api/src/main/java/com/github/retrooper/packetevents/util/adventure/AdventureNBTSerializer.java:389-406 | serializeUUID then deserializeUUID is the identity, and every four-int array is the form of the UUID it reads as |
| AdventureNbt.RoundTrip | api/src/main/java/com/github/retrooper/packetevents/util/adventure/AdventureNBTSerializer.java:48-235 | every canonical component is read back, as corrected, from what serialize writes |
| AdventureNbt.CompoundRoundTrip | api/src/main/java/com/github/retrooper/packetevents/util/adventure/AdventureNBTSerializer.java:61-140 | every canonical component is read back from its compound form (see also lines 151-235) |
| AdventureNbt.ListRoundTrip | api/src/main/java/com/github/retrooper/packetevents/util/adventure/AdventureNBTSerializer.java:410-427 | a list of canonical components is read back from its list of compounds |
| AdventureNbt.StyleRoundTrip | api/src/main/java/com/github/retrooper/packetevents/util/adventure/AdventureNBTSerializer.java:239-359 | a non-empty canonical style is read back from its compound |
| AdventureNbt.ScalarStyleTags | api/src/main/java/com/github/retrooper/packetevents/util/adventure/AdventureNBTSerializer.java:298-302 | font, colour and insertion write only their own keys (see also lines 311-312) |
| AdventureNbt.DecorationTags | api/src/main/java/com/github/retrooper/packetevents/util/adventure/AdventureNBTSerializer.java:304-309 | the decorations write only the decoration keys |
| AdventureNbt.EventTags | api/src/main/java/com/github/retrooper/packetevents/util/adventure/AdventureNBTSerializer.java:314-356 | the events write only clickEvent and hoverEvent |
| AdventureNbt.StyleKeysOf | api/src/main/java/com/github/retrooper/packetevents/util/adventure/AdventureNBTSerializer.java:293-359 | each style key of the written compound holds its part's tag, or is absent for a part that is not set |
| AdventureNbt.StyleReadsBack | api/src/main/java/com/github/retrooper/packetevents/util/adventure/AdventureNBTSerializer.java:239-359 | a non-empty canonical style whose hover event reads back is read back from its compound |
| AdventureNbt.DecorationReadsBack | api/src/main/java/com/github/retrooper/packetevents/util/adventure/AdventureNBTSerializer.java:251-253 | each decoration's state is read back from the written decoration tags (see also lines 304-309) |
| AdventureNbt.StyleNonEmpty | api/src/main/java/com/github/retrooper/packetevents/util/adventure/AdventureNBTSerializer.java:294-319 | a non-empty style writes at least one key, so it is not confused with the empty style |
| AdventureNbt.DecorationsRoundTrip | api/src/main/java/com/github/retrooper/packetevents/util/adventure/AdventureNBTSerializer.java:251-253 | each decoration state, not set, true or false, is read back from what is written (see also lines 304-309) |
| AdventureNbt.ClickReadsBack | api/src/main/java/com/github/retrooper/packetevents/util/adventure/AdventureNBTSerializer.java:256-262 | a click event is read back from its action name and value (see also lines 314-319) |
| AdventureNbt.HoverRoundTrip | api/src/main/java/com/github/retrooper/packetevents/util/adventure/AdventureNBTSerializer.java:264-288 | every canonical hover event is read back from its compound (see also lines 321-356) |
| AdventureNbt.HoverActionRoundTrip | api/src/main/java/com/github/retrooper/packetevents/util/adventure/AdventureNBTSerializer.java:266 | every hover action is found again by the name it is written as (see also line 324) |
| AdventureNbt.ShowItemReadsBack | api/src/main/java/com/github/retrooper/packetevents/util/adventure/AdventureNBTSerializer.java:269-279 | an item, whether written as a bare string or as a compound, reads back with its id, count and NBT (see also lines 330-344) |
| AdventureNbt.ShowItemContentsReadBack | api/src/main/java/com/github/retrooper/packetevents/util/adventure/AdventureNBTSerializer.java:269-279 | an item reads back from its contents, written as a bare string or a compound (see also lines 336-344) |
| AdventureNbt.ShowItemCompoundReadsBack | api/src/main/java/com/github/retrooper/packetevents/util/adventure/AdventureNBTSerializer.java:272-279 | an item with count other than 1 or with NBT reads back from its compound contents (see also lines 339-344) |
| AdventureNbt.ShowEntityContentsReadBack | api/src/main/java/com/github/retrooper/packetevents/util/adventure/AdventureNBTSerializer.java:280-286 | an entity whose name reads back is read back from its contents (see also lines 346-352) |
| AdventureNbt.ShowEntityReadsBack | api/src/main/java/com/github/retrooper/packetevents/util/adventure/AdventureNBTSerializer.java:280-286 | an entity reads back with its type, UUID and optional name (see also lines 346-352) |
| AdventureNbt.ShowTextReadsBack | api/src/main/java/com/github/retrooper/packetevents/util/adventure/AdventureNBTSerializer.java:267-268 | a shown text reads back from its contents (see also lines 326-328) |
| AdventureNbt.ReadFieldsOf | api/src/main/java/com/github/retrooper/packetevents/util/adventure/AdventureNBTSerializer.java:76-138 | every field of a canonical component, kind, style, arguments and children, reads back from its compound (see also lines 151-232) |
| AdventureNbt.KindKeysOf | api/src/main/java/com/github/retrooper/packetevents/util/adventure/AdventureNBTSerializer.java:155-222 | the written compound holds exactly the kind keys of the component's kind |
| AdventureNbt.ComponentListReadsBack | api/src/main/java/com/github/retrooper/packetevents/util/adventure/AdventureNBTSerializer.java:136-138 | a children or arguments list is absent when empty and otherwise reads back as written (see also lines 229-232) |
| AdventureNbt.SeparatorReadsBack | api/src/main/java/com/github/retrooper/packetevents/util/adventure/AdventureNBTSerializer.java:169-172 | an optional separator is absent when not set and otherwise reads back as written (see also lines 188-190, 205-207) |
| AdventureNbt.StyleTagReadsBack | api/src/main/java/com/github/retrooper/packetevents/util/adventure/AdventureNBTSerializer.java:132-134 | the style key is absent for the empty style and otherwise reads back as written (see also lines 224-226) |
| AdventureNbt.ListSnocRoundTrip | api/src/main/java/com/github/retrooper/packetevents/util/adventure/AdventureNBTSerializer.java:410-427 | appending a component that reads back to a list that reads back gives a list that reads back |
| AdventureNbt.InterpretFalseLost | api/src/main/java/com/github/retrooper/packetevents/util/adventure/AdventureNBTSerializer.java:86 | as written, an NBT-path component with interpret false does not survive the round trip: reading it back fails (see also lines 115, 200-203) |
| AdventureNbt.InterpretFalseKept | api/src/main/java/com/github/retrooper/packetevents/util/adventure/AdventureNBTSerializer.java:86 | corrected, the same component reads back with interpret false (see also lines 115, 200-203) |
| AdventureNbt.SerializeComponentList | api/src/main/java/com/github/retrooper/packetevents/util/adventure/AdventureNBTSerializer.java:421-427 | the loop writes each component's compound in order |
| AdventureNbt.DeserializeComponentList | api/src/main/java/com/github/retrooper/packetevents/util/adventure/AdventureNBTSerializer.java:410-419 | the loop reads each tag in order, and the first failure fails the list |
| AdventureNbt.ItemsPrefixFails | api/src/main/java/com/github/retrooper/packetevents/util/adventure/AdventureNBTSerializer.java:414-416 | once a prefix of the list fails to read, the whole list fails |
| BungeeDecoder.RewrittenReadsBack | bungeecord/src/main/java/io/github/retrooper/packetevents/handlers/PacketEventsDecoder.java:56-59 | a rewritten packet starts with its packet id, which reads back, followed by exactly what the wrapper wrote |
| BungeeDecoder.TasksRunOrder | bungeecord/src/main/java/io/github/retrooper/packetevents/handlers/PacketEventsDecoder.java:65-69 | the tasks run are a prefix of the list, in order; when none throws, all run; a shorter run ends at a task that threw |
| BungeeDecoder.TasksRunStep | bungeecord/src/main/java/io/github/retrooper/packetevents/handlers/PacketEventsDecoder.java:66-68 | after k tasks that did not throw, the run continues with task k and stops there exactly when it throws |
| BungeeDecoder.Repeat | bungeecord/src/main/java/io/github/retrooper/packetevents/handlers/PacketEventsDecoder.java:73-74 | n repetitions of a printed line are n copies of it |
| BungeeDecoder.WrapSmall | bungeecord/src/main/java/io/github/retrooper/packetevents/handlers/PacketEventsDecoder.java:71 | the int counter does not wrap while it stays below 2^31 |
| BungeeDecoder.CatchKeepsNoticeOnce | bungeecord/src/main/java/io/github/retrooper/packetevents/handlers/PacketEventsDecoder.java:70-78 | each caught exception keeps the "too many exceptions" line printed at most once, exactly when sent is set |
| BungeeDecoder.CatchSchedule | bungeecord/src/main/java/io/github/retrooper/packetevents/handlers/PacketEventsDecoder.java:70-78 | on a fresh handler with a player, the first nine exceptions print stack traces, the tenth prints the notice, later ones print nothing, and none escapes |
| BungeeDecoder.CatchScheduleWithoutPlayer | bungeecord/src/main/java/io/github/retrooper/packetevents/handlers/PacketEventsDecoder.java:75-77 | with no player set, the first nine exceptions print stack traces; from the tenth on nothing is printed, sent stays false, and every one escapes the handler |
| BungeeDecoder.PacketEventsDecoder.SetPlayer | bungeecord/src/main/java/io/github/retrooper/packetevents/handlers/PacketEventsDecoder.java:39 | after the proxy assigns the player, the handler has one |
| BungeeDecoder.PacketEventsDecoder.constructor | bungeecord/src/main/java/io/github/retrooper/packetevents/handlers/PacketEventsDecoder.java:40-45 | a new handler has caught nothing, sent is false, nothing is printed and no player is set |
| BungeeDecoder.PacketEventsDecoder.Caught | bungeecord/src/main/java/io/github/retrooper/packetevents/handlers/PacketEventsDecoder.java:70-78 | the handler's state becomes Catch of the old one: counter plus one, a trace below 10, otherwise the notice once if there is a player; it reports an escaping exception exactly when the notice is due and there is no player |
| BungeeDecoder.PacketEventsDecoder.RunPostTasks | bungeecord/src/main/java/io/github/retrooper/packetevents/handlers/PacketEventsDecoder.java:65-69 | the loop runs the tasks of TasksRun in order, and reports a throw exactly when some task throws |
| BungeeDecoder.PacketEventsDecoder.Commit | bungeecord/src/main/java/io/github/retrooper/packetevents/handlers/PacketEventsDecoder.java:55-64 | without a wrapper the copy is rewound to its first byte; with one it holds the packet id and the wrapper's bytes; it is retained and added to the output unless the wrapper threw |
| BungeeDecoder.PacketEventsDecoder.Read | bungeecord/src/main/java/io/github/retrooper/packetevents/handlers/PacketEventsDecoder.java:47-82 | the output gains the copy exactly when Forwarded says so, holding Forwarded's bytes; cancelled packets add nothing; post tasks run per PostTasksRun; a throw is counted; an exception escapes exactly when a throw meets a due notice without a player; the copy is released on every path |
| BungeeDecoder.PacketEventsDecoder.Decode | bungeecord/src/main/java/io/github/retrooper/packetevents/handlers/PacketEventsDecoder.java:85-89 | an unreadable buffer changes nothing and nothing escapes; for a readable one the old output items stay, a forwarded packet adds one fresh buffer holding Forwarded's bytes with one reference, the input keeps its bytes and reference count, and post tasks, the throttle and escape are as in read |
| Buffers.ByteBuf.constructor | bungeecord/src/main/java/io/github/retrooper/packetevents/handlers/PacketEventsDecoder.java:48 | a new buffer holds the given bytes, reads from the start and has one reference |
| Buffers.ByteBuf.WriteBytes | bungeecord/src/main/java/io/github/retrooper/packetevents/handlers/PacketEventsDecoder.java:48 | writing appends the bytes and keeps the reader index and reference count (see also lines 58-59) |
| Buffers.ByteBuf.Clear | bungeecord/src/main/java/io/github/retrooper/packetevents/handlers/PacketEventsDecoder.java:57 | clear empties the buffer and rewinds the reader, keeping the reference count |
| Buffers.ByteBuf.SetReaderIndex | bungeecord/src/main/java/io/github/retrooper/packetevents/handlers/PacketEventsDecoder.java:61 | readerIndex(i) sets the reader index to i |
| Buffers.ByteBuf.Readable | bungeecord/src/main/java/io/github/retrooper/packetevents/handlers/PacketEventsDecoder.java:86 | the readable bytes are those from the reader index to the end |
| BungeeDecoder.Output.constructor | bungeecord/src/main/java/io/github/retrooper/packetevents/handlers/PacketEventsDecoder.java:47 | the output list starts empty |
| Buffers.ByteBuf.Release | bungeecord/src/main/java/io/github/retrooper/packetevents/handlers/PacketEventsDecoder.java:79-81 | release lowers the reference count by one |
| Buffers.ByteBuf.Retain | bungeecord/src/main/java/io/github/retrooper/packetevents/handlers/PacketEventsDecoder.java:63 | retain raises the reference count by one |

## Left out

- NBTWriter's in-place updates of a shared compound are modelled on values: each write is a map update. Aliasing between a writer and its child writers is not captured, and the compound's insertion order plays no part in equality.
- Library parsing of resource keys (`Key.key`), block positions (`BlockNBTComponent.Pos.fromString`) and colours, colour downsampling (`NamedTextColor.nearestTo`) and Java's float and double narrowing to int are parameters of `AdventureNbt.Serializer`. Their behaviour is not modelled.
- Floating-point values are opaque 32- and 64-bit words. No float arithmetic is modelled.
- The show_achievement hover action and any hover action unknown to the text library are not modelled. An unknown action name fails, as `NAMES.value` yields null and the action test throws.
- `AdventureNbt.DeserializeStyle`: only the empty-compound case is stated on the function itself. The full behaviour is stated by `AdventureNbt.StyleRoundTrip` for compounds that `serializeStyle` writes, not for arbitrary compounds.
- `AdventureNbt.RoundTrip` and the other round-trip lemmas are stated for the corrected reading of the interpret flag and for canonical components. As written, the reading fails for NBT-path components whose flag is false (see Findings).
- The event manager's listener dispatch, `EventCreationUtil` and `PacketReceiveEvent` are outside the model. What the listeners leave behind is an `Event` parameter of `Read`: cancelled flag, last-used wrapper, post tasks and reader index. `None` stands for a dispatch that threw.
- Printing is a log of lines (`StackTrace`, `TooManyExceptions`). Stack-trace contents and the player name are not modelled; whether a player is set is (`hasPlayer`), because without one the notice throws a NullPointerException out of `read` instead of printing.
- Netty's allocator, the `@Sharable` cross-thread use of the decoder, `exceptionCaught` and `channelInactive` teardown are not modelled. Reference counting is modelled only as a counter on each buffer.
- `BungeeDecoder.CatchSchedule` is stated for fewer than 2^31 exceptions. The counter itself wraps as a Java int (`Catch` uses `Wrap32`).
- RSA `KeyFactory` and `X509EncodedKeySpec` are a parameter, a partial function from key bytes to a public key. The printed stack trace of a failed conversion is not modelled.
- `PacketWrapperUtils.readVarInt`, the api `PacketWrapper` write, optional and mapped-entity primitives, and Netty's `ByteBuf` are not modelled from their own code. The model gives them concrete encodings with matching readers, following the Minecraft protocol.
- `Codec.ReadIdentifierAt` returns the identifier's string as read. Java builds a `ResourceLocation`, whose `toString()` puts "minecraft:" in front of a string without ':', and WrapperPlayServerUpdateAttributes.java:98 and Sound.java:38 use that form. This namespace defaulting is not modelled; a written identifier always carries its namespace, so the round trips are unaffected.
- `UpdateAttributesPacket.WrapperPlayServerUpdateAttributes.Read` leaves `properties` empty when a property read fails. WrapperPlayServerUpdateAttributes.java:92-93 adds to a new list as it goes, so Java keeps the properties read before the failure.
- UTF-8 decoding of malformed input is approximated: each byte that does not begin a well-formed sequence decodes to one U+FFFD. Java's decoder may group some malformed sequences differently. Only well-formed input matters for the round trips.
- The attribute, particle-type and sound registries (`Attributes`, `ParticleTypes`, `Sounds`) and the file-backed `TypesBuilder`/`MappingHelper` data are parameters. Their contents are not modelled.
- `UpdateAttributesPacket.WrapperPlayServerUpdateAttributes.Write`: an attribute missing from the registry, or a legacy attribute missing from the reverse map, makes Java throw a NullPointerException. The model requires that every written attribute be present, so the exception path is not modelled.
- Particle types whose data is neither empty nor a dust colour transition are not modelled.
- `Wrapper.ReadStringAt` decodes exactly the payload bytes. When the buffer has a backing array, PacketWrapper.java:68-77 decodes the whole backing array of the buffer it reads into; the model assumes that array is exactly the payload.
- `UpdateAttributesPacket.WrapperPlayServerUpdateAttributes.Copy` copies the property list as a value. WrapperPlayServerUpdateAttributes.java:161-164 shares the same mutable `List` between the two packets, so a later change through one is seen by the other; that aliasing is not modelled.
- `EnchantmentTypes.EqualsIsIdentity` (with `EnchantmentTypes.EnchantmentType.Equals`) compares names by value. EnchantmentTypes.java:57-63 compares `ResourceLocation`s by reference (`==`). The two agree for types taken from the registry, each of which holds its own name instance; two types built separately with equal names are equal in the model but not in Java.

## Findings

| source | as written | input that shows it | evidently intended | confidence | as-written member | corrected member |
|---|---|---|---|---|---|---|
| api/src/main/java/com/github/retrooper/packetevents/util/adventure/AdventureNBTSerializer.java:200-203 | `serializeComponent` writes "interpret" only when it is true. `deserialize` (lines 86, 115, 119 and 123) reads the flag as a `Boolean` that is null when the key is absent, and passes it to `interpret(boolean)`, which unboxes it and throws a NullPointerException. | any block, entity or storage NBT component with interpret false, e.g. a block NBT component with path "a", interpret false, pos "0 0 0": serialize writes {nbt: "a", block: "0 0 0"} and deserialize throws | an absent flag reads as false, so every NBT component survives serialize then deserialize | not executed | AdventureNbt.InterpretFalseLost | AdventureNbt.InterpretFalseKept |
