/**
 * Laws of the memory types' wire format that host and guest builds rely on to
 * agree byte for byte: decoding inverts encoding, decoding accepts exactly the
 * encodings, a truncated or over-long buffer is rejected, absence is not
 * emptiness, and each struct lays out its fields in declaration order.
 */
module MemoryLaws {
  import opened Borsh
  import opened Memory

  // ---------------------------------------------------------------------------
  // Round trip
  //
  // One lemma per catalog type: parsing the type's encoding followed by any
  // bytes gives back the value and exactly those bytes.

  lemma TxInputRoundTrip(tx: TxInput, rest: seq<byte>)
    requires Fits(tx)
    ensures Parse(TxInputKind, EncodeTxInput(tx) + rest) == Ok(Parsed(TxInputMsg(tx), rest))
  {
    ParseBytesRoundTrip(tx, rest);
  }

  lemma VpInputRoundTrip(vp: VpInput, rest: seq<byte>)
    requires vp.Valid()
    ensures Parse(VpInputKind, EncodeVpInput(vp) + rest) == Ok(Parsed(VpInputMsg(vp), rest))
  {
    var a, d, k := EncStr(vp.addr), EncBytes(vp.txData), EncStrVec(vp.keysChanged);
    ConcatAssoc(a, d, k, rest);
    ParseBytesRoundTrip(vp.addr, d + (k + rest));
    ParseBytesRoundTrip(vp.txData, k + rest);
    ParseStrVecRoundTrip(vp.keysChanged, rest);
  }

  lemma StorageReadInputRoundTrip(x: StorageReadInput, rest: seq<byte>)
    requires x.Valid()
    ensures Parse(StorageReadInputKind, EncodeStorageReadInput(x) + rest) == Ok(Parsed(StorageReadInputMsg(x), rest))
  {
    assert EncodeStorageReadInput(x) + rest == EncStr(x.addr) + (EncStr(x.key) + rest);
    ParseBytesRoundTrip(x.addr, EncStr(x.key) + rest);
    ParseBytesRoundTrip(x.key, rest);
  }

  lemma StorageReadOutputRoundTrip(x: StorageReadOutput, rest: seq<byte>)
    requires x.Valid()
    ensures Parse(StorageReadOutputKind, EncodeStorageReadOutput(x) + rest) == Ok(Parsed(StorageReadOutputMsg(x), rest))
  {
    ParseOptBytesRoundTrip(x.data, rest);
  }

  lemma StorageHasKeyInputRoundTrip(x: StorageHasKeyInput, rest: seq<byte>)
    requires x.Valid()
    ensures Parse(StorageHasKeyInputKind, EncodeStorageHasKeyInput(x) + rest) == Ok(Parsed(StorageHasKeyInputMsg(x), rest))
  {
    assert EncodeStorageHasKeyInput(x) + rest == EncStr(x.addr) + (EncStr(x.key) + rest);
    ParseBytesRoundTrip(x.addr, EncStr(x.key) + rest);
    ParseBytesRoundTrip(x.key, rest);
  }

  lemma StorageHasKeyOutputRoundTrip(x: StorageHasKeyOutput, rest: seq<byte>)
    ensures Parse(StorageHasKeyOutputKind, EncodeStorageHasKeyOutput(x) + rest) == Ok(Parsed(StorageHasKeyOutputMsg(x), rest))
  {
    ParseBoolRoundTrip(x.found, rest);
  }

  lemma StorageWriteInputRoundTrip(x: StorageWriteInput, rest: seq<byte>)
    requires x.Valid()
    ensures Parse(StorageWriteInputKind, EncodeStorageWriteInput(x) + rest) == Ok(Parsed(StorageWriteInputMsg(x), rest))
  {
    assert EncodeStorageWriteInput(x) + rest == EncStr(x.key) + (EncBytes(x.val) + rest);
    ParseBytesRoundTrip(x.key, EncBytes(x.val) + rest);
    ParseBytesRoundTrip(x.val, rest);
  }

  lemma StorageReadSelfInputRoundTrip(x: StorageReadSelfInput, rest: seq<byte>)
    requires x.Valid()
    ensures Parse(StorageReadSelfInputKind, EncodeStorageReadSelfInput(x) + rest) == Ok(Parsed(StorageReadSelfInputMsg(x), rest))
  {
    ParseBytesRoundTrip(x.key, rest);
  }

  lemma StorageReadSelfOutputRoundTrip(x: StorageReadSelfOutput, rest: seq<byte>)
    requires x.Valid()
    ensures Parse(StorageReadSelfOutputKind, EncodeStorageReadSelfOutput(x) + rest) == Ok(Parsed(StorageReadSelfOutputMsg(x), rest))
  {
    ParseOptBytesRoundTrip(x.data, rest);
  }

  lemma OtherApprovedInputRoundTrip(x: OtherApprovedInput, rest: seq<byte>)
    requires x.Valid()
    ensures Parse(OtherApprovedInputKind, EncodeOtherApprovedInput(x) + rest) == Ok(Parsed(OtherApprovedInputMsg(x), rest))
  {
    ParseBytesRoundTrip(x.addr, rest);
  }

  lemma OtherApprovedOutputRoundTrip(x: OtherApprovedOutput, rest: seq<byte>)
    ensures Parse(OtherApprovedOutputKind, EncodeOtherApprovedOutput(x) + rest) == Ok(Parsed(OtherApprovedOutputMsg(x), rest))
  {
    ParseBoolRoundTrip(x.approved, rest);
  }

  /**
   * Parsing the encoding of any message, followed by any bytes, gives back
   * the message and exactly the bytes that followed it.
   */
  lemma ParseEncodeRoundTrip(m: Message, rest: seq<byte>)
    requires WellFormed(m)
    ensures Parse(KindOf(m), Encode(m) + rest) == Ok(Parsed(m, rest))
  {
    match m
    case TxInputMsg(tx) => TxInputRoundTrip(tx, rest);
    case VpInputMsg(vp) => VpInputRoundTrip(vp, rest);
    case StorageReadInputMsg(x) => StorageReadInputRoundTrip(x, rest);
    case StorageReadOutputMsg(x) => StorageReadOutputRoundTrip(x, rest);
    case StorageHasKeyInputMsg(x) => StorageHasKeyInputRoundTrip(x, rest);
    case StorageHasKeyOutputMsg(x) => StorageHasKeyOutputRoundTrip(x, rest);
    case StorageWriteInputMsg(x) => StorageWriteInputRoundTrip(x, rest);
    case StorageReadSelfInputMsg(x) => StorageReadSelfInputRoundTrip(x, rest);
    case StorageReadSelfOutputMsg(x) => StorageReadSelfOutputRoundTrip(x, rest);
    case OtherApprovedInputMsg(x) => OtherApprovedInputRoundTrip(x, rest);
    case OtherApprovedOutputMsg(x) => OtherApprovedOutputRoundTrip(x, rest);
  }

  /** Round trip: decoding the encoding of a message yields exactly that message. */
  lemma DecodeEncode(m: Message)
    requires WellFormed(m)
    ensures Decode(KindOf(m), Encode(m)) == Ok(m)
  {
    ParseEncodeRoundTrip(m, []);
    assert Encode(m) + [] == Encode(m);
  }

  /** A buffer decodes to a message exactly when it is that message's encoding. */
  lemma DecodeIffEncode(k: Kind, s: seq<byte>, m: Message)
    ensures Decode(k, s) == Ok(m) <==> KindOf(m) == k && WellFormed(m) && s == Encode(m)
  {
    if KindOf(m) == k && WellFormed(m) && s == Encode(m) {
      DecodeEncode(m);
    }
  }

  /** Two messages of one type with the same bytes are the same message. */
  lemma EncodeInjective(m1: Message, m2: Message)
    requires WellFormed(m1) && WellFormed(m2) && KindOf(m1) == KindOf(m2)
    requires Encode(m1) == Encode(m2)
    ensures m1 == m2
  {
    DecodeEncode(m1);
    DecodeEncode(m2);
  }

  // ---------------------------------------------------------------------------
  // Truncation and trailing bytes

  /** Bytes after a complete message make the whole-buffer decode fail. */
  lemma DecodeRejectsTrailingBytes(m: Message, extra: seq<byte>)
    requires WellFormed(m) && extra != []
    ensures Decode(KindOf(m), Encode(m) + extra) == Err(NotAllBytesRead)
  {
    ParseEncodeRoundTrip(m, extra);
  }

  /** Encodings of one type are prefix-free: none is a strict prefix of another. */
  lemma EncodePrefixFree(m: Message, m': Message, t: seq<byte>)
    requires WellFormed(m) && WellFormed(m') && KindOf(m) == KindOf(m')
    requires Encode(m) == Encode(m') + t
    ensures t == [] && m == m'
  {
    ParseEncodeRoundTrip(m', t);
    ParseEncodeRoundTrip(m, []);
    assert Encode(m) + [] == Encode(m);
  }

  /** A buffer that some non-empty tail would complete to an encoding does not decode. */
  lemma DecodeRejectsIncomplete(m: Message, p: seq<byte>, t: seq<byte>)
    requires WellFormed(m) && Encode(m) == p + t && t != []
    ensures Decode(KindOf(m), p).Err?
  {
    var r := Decode(KindOf(m), p);
    if r.Ok? {
      EncodePrefixFree(m, r.value, t);
      assert false;
    }
  }

  /** A strict prefix of an encoding never decodes, not even to another message. */
  lemma DecodeRejectsStrictPrefix(m: Message, n: nat)
    requires WellFormed(m) && n < |Encode(m)|
    ensures Decode(KindOf(m), Encode(m)[..n]).Err?
  {
    var s := Encode(m);
    assert s == s[..n] + s[n..];
    DecodeRejectsIncomplete(m, s[..n], s[n..]);
  }

  // ---------------------------------------------------------------------------
  // Absence is not emptiness

  /** `None` is one zero byte, `Some([])` is a one and an empty length; each decodes to itself. */
  lemma StorageReadOutputAbsentIsNotEmpty()
    ensures Encode(StorageReadOutputMsg(StorageReadOutput(None))) == [0]
    ensures Encode(StorageReadOutputMsg(StorageReadOutput(Some([])))) == [1, 0, 0, 0, 0]
    ensures Decode(StorageReadOutputKind, [0]) == Ok(StorageReadOutputMsg(StorageReadOutput(None)))
    ensures Decode(StorageReadOutputKind, [1, 0, 0, 0, 0]) == Ok(StorageReadOutputMsg(StorageReadOutput(Some([]))))
  {
    DecodeEncode(StorageReadOutputMsg(StorageReadOutput(None)));
    DecodeEncode(StorageReadOutputMsg(StorageReadOutput(Some([]))));
  }

  lemma StorageReadSelfOutputAbsentIsNotEmpty()
    ensures Encode(StorageReadSelfOutputMsg(StorageReadSelfOutput(None))) == [0]
    ensures Encode(StorageReadSelfOutputMsg(StorageReadSelfOutput(Some([])))) == [1, 0, 0, 0, 0]
    ensures Decode(StorageReadSelfOutputKind, [0]) == Ok(StorageReadSelfOutputMsg(StorageReadSelfOutput(None)))
    ensures Decode(StorageReadSelfOutputKind, [1, 0, 0, 0, 0])
         == Ok(StorageReadSelfOutputMsg(StorageReadSelfOutput(Some([]))))
  {
    DecodeEncode(StorageReadSelfOutputMsg(StorageReadSelfOutput(None)));
    DecodeEncode(StorageReadSelfOutputMsg(StorageReadSelfOutput(Some([]))));
  }

  // ---------------------------------------------------------------------------
  // The boolean outputs

  /** A has-key answer is one byte, 0 or 1; no byte, or any other byte, does not decode. */
  lemma StorageHasKeyOutputIsOneByte(found: bool, t: byte)
    ensures Encode(StorageHasKeyOutputMsg(StorageHasKeyOutput(found))) == [if found then 1 else 0]
    ensures Decode(StorageHasKeyOutputKind, []) == Err(UnexpectedEndOfInput)
    ensures t > 1 ==> Decode(StorageHasKeyOutputKind, [t]) == Err(InvalidBool(t))
  {
  }

  lemma OtherApprovedOutputIsOneByte(approved: bool, t: byte)
    ensures Encode(OtherApprovedOutputMsg(OtherApprovedOutput(approved))) == [if approved then 1 else 0]
    ensures Decode(OtherApprovedOutputKind, []) == Err(UnexpectedEndOfInput)
    ensures t > 1 ==> Decode(OtherApprovedOutputKind, [t]) == Err(InvalidBool(t))
  {
  }

  // ---------------------------------------------------------------------------
  // Field layout

  /** Read input: the address string, then the key string, with no tags. */
  lemma StorageReadInputLayout(addr: String, key: String)
    requires Fits(addr) && Fits(key)
    ensures Encode(StorageReadInputMsg(StorageReadInput(addr, key)))
         == LE32(|addr|) + addr + LE32(|key|) + key
  {
  }

  /** Write input: the key string, then the value bytes, with no tags. */
  lemma StorageWriteInputLayout(key: String, val: seq<byte>)
    requires Fits(key) && Fits(val)
    ensures Encode(StorageWriteInputMsg(StorageWriteInput(key, val)))
         == LE32(|key|) + key + LE32(|val|) + val
  {
  }

  /**
   * A read input and a has-key input with the same fields are the same bytes:
   * the bytes of one decode as the other, so only the call tells them apart.
   */
  lemma ReadAndHasKeyInputsShareWireForm(addr: String, key: String)
    requires Fits(addr) && Fits(key)
    ensures Encode(StorageReadInputMsg(StorageReadInput(addr, key)))
         == Encode(StorageHasKeyInputMsg(StorageHasKeyInput(addr, key)))
    ensures Decode(StorageHasKeyInputKind, Encode(StorageReadInputMsg(StorageReadInput(addr, key))))
         == Ok(StorageHasKeyInputMsg(StorageHasKeyInput(addr, key)))
  {
    DecodeEncode(StorageHasKeyInputMsg(StorageHasKeyInput(addr, key)));
  }

  /**
   * A read-self input is the key string alone: no address bytes, so it is
   * shorter than any read input for the same key.
   */
  lemma StorageReadSelfInputCarriesOnlyKey(key: String, addr: String)
    requires Fits(key) && Fits(addr)
    ensures Encode(StorageReadSelfInputMsg(StorageReadSelfInput(key))) == LE32(|key|) + key
    ensures |Encode(StorageReadSelfInputMsg(StorageReadSelfInput(key)))| + 4 + |addr|
         == |Encode(StorageReadInputMsg(StorageReadInput(addr, key)))|
  {
  }

  /** VP input: address, transaction data, then the key count and each key in order. */
  lemma VpInputLayout(vp: VpInput)
    requires vp.Valid()
    ensures Encode(VpInputMsg(vp))
         == EncStr(vp.addr) + EncBytes(vp.txData) + LE32(|vp.keysChanged|) + EncStrSeq(vp.keysChanged)
  {
  }

  /**
   * The guest's decoded view of a VP input has the host's address, the same
   * transaction bytes and the changed keys in the same order, duplicates kept.
   */
  lemma VpInputDecodedView(addr: String, txData: TxData, keys: KeysChanged)
    requires Fits(addr) && Fits(txData) && FitsAll(keys)
    ensures var r := Decode(VpInputKind, Encode(VpInputMsg(VpInput(addr, txData, keys))));
      && r.Ok? && r.value.VpInputMsg?
      && r.value.vpInput.addr == addr
      && r.value.vpInput.txData == txData
      && |r.value.vpInput.keysChanged| == |keys|
      && forall i :: 0 <= i < |keys| ==> r.value.vpInput.keysChanged[i] == keys[i]
  {
    DecodeEncode(VpInputMsg(VpInput(addr, txData, keys)));
  }

  // ---------------------------------------------------------------------------
  // Concrete messages

  /** A string shorter than 256 bytes has its length in the first prefix byte and zeros after it. */
  lemma EncStrShort(s: String)
    requires |s| < 256
    ensures EncStr(s) == [|s| as byte, 0, 0, 0] + s
  {
    assert LE32(|s|) == [|s| as byte, 0, 0, 0];
  }

  /** `StorageHasKeyInput { addr: "alice", key: "balance" }` on the wire, and back. */
  lemma HasKeyInputAliceBalance()
    ensures var alice: String := [97, 108, 105, 99, 101];
      var balance: String := [98, 97, 108, 97, 110, 99, 101];
      var m := StorageHasKeyInputMsg(StorageHasKeyInput(alice, balance));
      && Encode(m) == [5, 0, 0, 0] + alice + [7, 0, 0, 0] + balance
      && Decode(StorageHasKeyInputKind, Encode(m)) == Ok(m)
  {
    var alice: String := [97, 108, 105, 99, 101];
    var balance: String := [98, 97, 108, 97, 110, 99, 101];
    EncStrShort(alice);
    EncStrShort(balance);
    DecodeEncode(StorageHasKeyInputMsg(StorageHasKeyInput(alice, balance)));
  }

  /** `StorageWriteInput { key: "x", val: [1, 2, 3] }` on the wire, and back. */
  lemma WriteInputXOneTwoThree()
    ensures var m := StorageWriteInputMsg(StorageWriteInput([120], [1, 2, 3]));
      && Encode(m) == [1, 0, 0, 0, 120, 3, 0, 0, 0, 1, 2, 3]
      && Decode(StorageWriteInputKind, Encode(m)) == Ok(m)
  {
    EncStrShort([120]);
    EncStrShort([1, 2, 3]);
    DecodeEncode(StorageWriteInputMsg(StorageWriteInput([120], [1, 2, 3])));
  }

  /** Changed keys `["a", "b"]` come back as `["a", "b"]`, and `["b", "a"]` is different bytes. */
  lemma KeysChangedOrderKept(addr: String, txData: TxData)
    requires Fits(addr) && Fits(txData)
    ensures var ab := VpInputMsg(VpInput(addr, txData, [[97], [98]]));
      var ba := VpInputMsg(VpInput(addr, txData, [[98], [97]]));
      && Decode(VpInputKind, Encode(ab)) == Ok(ab)
      && Encode(ab) != Encode(ba)
  {
    var ab := VpInputMsg(VpInput(addr, txData, [[97], [98]]));
    var ba := VpInputMsg(VpInput(addr, txData, [[98], [97]]));
    DecodeEncode(ab);
    if Encode(ab) == Encode(ba) {
      EncodeInjective(ab, ba);
    }
  }
}
