/** The login encryption request sent by an online-mode server: a server
    id, the server's public key as X.509 bytes, and a verify token, read in
    that order from the wrapper's buffer. */
module LoginEncryption {
  import opened Wire
  import opened Versions
  import opened Buffers
  import opened Wrapper

  /** The server id is read with a limit of 20 characters (80 bytes). */
  const SERVER_ID_MAX_LENGTH: int32 := 20

  /** An RSA public key; only its encoded form is visible to the model. */
  datatype PublicKey = PublicKey(encoded: seq<byte>)

  /** The key conversion (`KeyFactory` with an `X509EncodedKeySpec`) is a
      partial function supplied by the caller; None stands for the
      exception the source catches. */
  type KeyFactory = seq<byte> -> Option<PublicKey>

  datatype EncryptionRequest = EncryptionRequest(serverID: string, publicKey: Option<PublicKey>, verifyToken: seq<byte>)

  /** A varint length followed by that many bytes. */
  function ReadPrefixedBytes(s: seq<byte>, pos: nat): (r: Option<(seq<byte>, nat)>)
    requires pos <= |s|
    ensures r.Some? ==> ReadVarInt(s, pos).Some?
    ensures r.Some? ==> (|r.value.0| == ReadVarInt(s, pos).value.0
      && r.value.1 == ReadVarInt(s, pos).value.1 + |r.value.0| <= |s| && pos < r.value.1)
    ensures r.Some? ==> r.value.0 == s[r.value.1 - |r.value.0|..r.value.1]
  {
    match ReadVarInt(s, pos)
    case None => None
    case Some((n, p)) =>
      if n < 0 || p + n > |s| then None else Some((s[p..p + n], p + n))
  }

  /** The constructor's parse sequence. */
  function ParseAt(s: seq<byte>, pos: nat, keyFactory: KeyFactory): (r: Option<(EncryptionRequest, nat)>)
    requires pos <= |s|
    ensures r.Some? ==> pos < r.value.1 <= |s|
    ensures r.Some? ==> Utf16Length(r.value.0.serverID) <= SERVER_ID_MAX_LENGTH
  {
    match ReadStringAt(s, pos, SERVER_ID_MAX_LENGTH)
    case StringFailed(_, _) => None
    case StringOk(id, p1) =>
      match ReadPrefixedBytes(s, p1)
      case None => None
      case Some((keyBytes, p2)) =>
        match ReadPrefixedBytes(s, p2)
        case None => None
        case Some((token, p3)) => Some((EncryptionRequest(id, keyFactory(keyBytes), token), p3))
  }

  function EncodePrefixedBytes(b: seq<byte>): seq<byte>
    requires |b| < TWO_31
  {
    EncodeVarInt(|b|) + b
  }

  /** The layout a server writes: server id, key bytes, verify token. */
  function Encode(serverID: string, keyBytes: seq<byte>, token: seq<byte>): seq<byte>
    requires |Utf8.Encode(serverID)| < TWO_31 && |keyBytes| < TWO_31 && |token| < TWO_31
  {
    EncodeString(serverID) + EncodePrefixedBytes(keyBytes) + EncodePrefixedBytes(token)
  }

  lemma ReadEncodePrefixedBytes(s: seq<byte>, pos: nat, b: seq<byte>)
    requires |b| < TWO_31 && Placed(s, pos, EncodePrefixedBytes(b))
    ensures ReadPrefixedBytes(s, pos) == Some((b, After(pos, EncodePrefixedBytes(b))))
  {
    PlacedSplit(s, pos, EncodeVarInt(|b|), b);
    PlacedSlice(s, pos + |EncodeVarInt(|b|)|, b);
    ReadEncodeVarInt(s, pos, |b|);
  }

  /** The parse is its three reads in sequence. */
  lemma ParseSteps(s: seq<byte>, pos: nat, keyFactory: KeyFactory, serverID: string, p1: nat,
                   keyBytes: seq<byte>, p2: nat, token: seq<byte>, p3: nat)
    requires pos <= |s| && ReadStringAt(s, pos, SERVER_ID_MAX_LENGTH) == StringOk(serverID, p1)
    requires ReadPrefixedBytes(s, p1) == Some((keyBytes, p2))
    requires ReadPrefixedBytes(s, p2) == Some((token, p3))
    ensures ParseAt(s, pos, keyFactory) == Some((EncryptionRequest(serverID, keyFactory(keyBytes), token), p3))
  {
  }

  /** Read-after-write: the three fields come back in order, the key
      converted by the key factory, and nothing past them is consumed. */
  lemma ParseEncode(s: seq<byte>, pos: nat, serverID: string, keyBytes: seq<byte>, token: seq<byte>, keyFactory: KeyFactory)
    requires |Utf8.Encode(serverID)| < TWO_31 && |keyBytes| < TWO_31 && |token| < TWO_31
    requires Utf16Length(serverID) <= SERVER_ID_MAX_LENGTH
    requires Placed(s, pos, Encode(serverID, keyBytes, token))
    ensures ParseAt(s, pos, keyFactory)
      == Some((EncryptionRequest(serverID, keyFactory(keyBytes), token), After(pos, Encode(serverID, keyBytes, token))))
  {
    var a, b, c := EncodeString(serverID), EncodePrefixedBytes(keyBytes), EncodePrefixedBytes(token);
    assert Encode(serverID, keyBytes, token) == a + b + c;
    ParseParts(s, pos, serverID, keyBytes, token, keyFactory, a, b, c);
  }

  /** The three fields of a request, placed one after the other, parse
      back as the request. */
  lemma ParseParts(s: seq<byte>, pos: nat, serverID: string, keyBytes: seq<byte>, token: seq<byte>, keyFactory: KeyFactory,
                   a: seq<byte>, b: seq<byte>, c: seq<byte>)
    requires |keyBytes| < TWO_31 && |token| < TWO_31
    requires Utf16Length(serverID) <= SERVER_ID_MAX_LENGTH
    requires a == EncodeString(serverID) && b == EncodePrefixedBytes(keyBytes) && c == EncodePrefixedBytes(token)
    requires Placed(s, pos, a + b + c)
    ensures ParseAt(s, pos, keyFactory) == Some((EncryptionRequest(serverID, keyFactory(keyBytes), token), After(pos, a + b + c)))
  {
    PlacedSplit3(s, pos, a, b, c);
    var p1 := After(pos, a);
    var p2 := After(p1, b);
    var p3 := After(p2, c);
    ReadEncodeString(s, pos, serverID, SERVER_ID_MAX_LENGTH);
    ReadEncodePrefixedBytes(s, p1, keyBytes);
    ReadEncodePrefixedBytes(s, p2, token);
    ParseSteps(s, pos, keyFactory, serverID, p1, keyBytes, p2, token, p3);
    assert p3 == After(pos, a + b + c);
  }

  /** A key the factory cannot convert leaves the public key null but
      does not abort the parse: whether the parse succeeds, where it ends
      and the other two fields do not depend on the key factory. */
  lemma KeyFailureDoesNotAbort(s: seq<byte>, pos: nat, f: KeyFactory, g: KeyFactory)
    requires pos <= |s|
    ensures ParseAt(s, pos, f).Some? == ParseAt(s, pos, g).Some?
    ensures ParseAt(s, pos, f).Some? ==>
      ParseAt(s, pos, f).value.1 == ParseAt(s, pos, g).value.1
      && ParseAt(s, pos, f).value.0.serverID == ParseAt(s, pos, g).value.0.serverID
      && ParseAt(s, pos, f).value.0.verifyToken == ParseAt(s, pos, g).value.0.verifyToken
  {
  }

  /** The wrapper object: its fields are final, set once by `Read`. */
  class WrapperLoginServerEncryptionRequest {
    const wrapper: PacketWrapper
    const serverID: string
    const publicKey: Option<PublicKey>
    const verifyToken: seq<byte>

    constructor (wrapper: PacketWrapper, serverID: string, publicKey: Option<PublicKey>, verifyToken: seq<byte>)
      ensures this.wrapper == wrapper && this.serverID == serverID
      ensures this.publicKey == publicKey && this.verifyToken == verifyToken
    {
      this.wrapper := wrapper;
      this.serverID := serverID;
      this.publicKey := publicKey;
      this.verifyToken := verifyToken;
    }

    function Fields(): EncryptionRequest {
      EncryptionRequest(serverID, publicKey, verifyToken)
    }

    /** A varint length, then `readByteArray` of that length. */
    static method ReadPrefixed(w: PacketWrapper) returns (r: Option<seq<byte>>)
      requires w.byteBuf.Valid()
      modifies w.byteBuf`readerIndex
      ensures w.byteBuf.Valid()
      ensures r == Value(ReadPrefixedBytes(w.byteBuf.bytes, old(w.byteBuf.readerIndex)))
      ensures r.Some? ==> w.byteBuf.readerIndex == ReadPrefixedBytes(w.byteBuf.bytes, old(w.byteBuf.readerIndex)).value.1
    {
      var length := w.ReadVarInt();
      if length.None? {
        return None;
      }
      var payload := w.ReadByteArray(length.value);
      if payload.None? {
        return None;
      }
      r := Some(payload.value[..]);
    }

    /** The source's constructor: readString(20), a varint key length and
        that many key bytes, a varint token length and that many bytes. */
    static method Read(version: ClientVersion, byteBuf: ByteBuf, keyFactory: KeyFactory)
      returns (r: Option<WrapperLoginServerEncryptionRequest>)
      requires byteBuf.Valid()
      modifies byteBuf`readerIndex
      ensures byteBuf.Valid()
      ensures var parsed := ParseAt(byteBuf.bytes, old(byteBuf.readerIndex), keyFactory);
        r.Some? <==> parsed.Some?
      ensures r.Some? ==>
        var parsed := ParseAt(byteBuf.bytes, old(byteBuf.readerIndex), keyFactory);
        fresh(r.value) && r.value.Fields() == parsed.value.0 && byteBuf.readerIndex == parsed.value.1
        && r.value.wrapper.version == version && r.value.wrapper.byteBuf == byteBuf
    {
      var w := new PacketWrapper(version, byteBuf);
      var id := w.ReadString(SERVER_ID_MAX_LENGTH);
      if id.StringFailed? {
        return None;
      }
      var keyBytes := ReadPrefixed(w);
      if keyBytes.None? {
        return None;
      }
      var publicKey := keyFactory(keyBytes.value);
      var token := ReadPrefixed(w);
      if token.None? {
        return None;
      }
      var request := new WrapperLoginServerEncryptionRequest(w, id.value, publicKey, token.value);
      r := Some(request);
    }
  }
}
