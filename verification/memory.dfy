/**
 * The memory types that cross wasm linear memory between the ledger (host) and
 * wasm code (guest), with the wire form their derived Borsh serialisation
 * gives them.
 *
 * Module call inputs (`TxInput`, `VpInput`) flow host to guest. The storage
 * and other-VP-approved inputs flow guest to host, and their outputs flow back
 * host to guest. A storage write has no output.
 *
 * No message carries a tag saying which type it is: the receiver knows the
 * type from the call it is serving. `Kind` stands for that out-of-band
 * knowledge and `Decode` takes it as an argument.
 */
module Memory {
  import opened Borsh

  /** The data attached to the transaction that initiated the wasm call. */
  type TxData = seq<byte>

  /** Storage keys changed by the transaction for the account of the VP, in write-log order. */
  type KeysChanged = seq<String>

  /** Input of a transaction wasm call: the transaction data and nothing else. */
  type TxInput = TxData

  /**
   * Input of a validity predicate wasm call: the address under validation, the
   * transaction data and the changed keys. The source borrows the last two;
   * Borsh writes a reference exactly like the value it points to.
   */
  datatype VpInput = VpInput(addr: String, txData: TxData, keysChanged: KeysChanged) {
    predicate Valid() { Fits(addr) && Fits(txData) && FitsAll(keysChanged) }
  }

  datatype StorageReadInput = StorageReadInput(addr: String, key: String) {
    predicate Valid() { Fits(addr) && Fits(key) }
  }

  /** `None`: nothing stored under the key. `Some([])`: an empty value is stored. */
  datatype StorageReadOutput = StorageReadOutput(data: Option<seq<byte>>) {
    predicate Valid() { data.Some? ==> Fits(data.value) }
  }

  datatype StorageHasKeyInput = StorageHasKeyInput(addr: String, key: String) {
    predicate Valid() { Fits(addr) && Fits(key) }
  }

  datatype StorageHasKeyOutput = StorageHasKeyOutput(found: bool)

  /** The update itself is kept by the host, so a write has no output type. */
  datatype StorageWriteInput = StorageWriteInput(key: String, val: seq<byte>) {
    predicate Valid() { Fits(key) && Fits(val) }
  }

  /** A read of the VP's own storage: the address is implicit. */
  datatype StorageReadSelfInput = StorageReadSelfInput(key: String) {
    predicate Valid() { Fits(key) }
  }

  datatype StorageReadSelfOutput = StorageReadSelfOutput(data: Option<seq<byte>>) {
    predicate Valid() { data.Some? ==> Fits(data.value) }
  }

  /** Asks whether the VP at the given address approved the transaction. */
  datatype OtherApprovedInput = OtherApprovedInput(addr: String) {
    predicate Valid() { Fits(addr) }
  }

  datatype OtherApprovedOutput = OtherApprovedOutput(approved: bool)

  // ---------------------------------------------------------------------------
  // Per-type encoders and parsers: fields in declaration order, no tags.

  function EncodeTxInput(tx: TxInput): (r: seq<byte>)
    requires Fits(tx)
    ensures |r| == 4 + |tx| && r[4..] == tx
  {
    EncBytes(tx)
  }

  function ParseTxInput(s: seq<byte>): (r: Result<Parsed<TxInput>>)
    ensures r.Ok? ==> Fits(r.value.value) && s == EncodeTxInput(r.value.value) + r.value.rest
  {
    ParseBytes(s)
  }

  function EncodeVpInput(vp: VpInput): (r: seq<byte>)
    requires vp.Valid()
    ensures |r| == 12 + |vp.addr| + |vp.txData| + StrSeqSize(vp.keysChanged)
  {
    EncStr(vp.addr) + EncBytes(vp.txData) + EncStrVec(vp.keysChanged)
  }

  function ParseVpInput(s: seq<byte>): (r: Result<Parsed<VpInput>>)
    ensures r.Ok? ==> r.value.value.Valid() && s == EncodeVpInput(r.value.value) + r.value.rest
  {
    var addr :- ParseStr(s);
    var txData :- ParseBytes(addr.rest);
    var keys :- ParseStrVec(txData.rest);
    var vp := VpInput(addr.value, txData.value, keys.value);
    ConcatAssoc(EncStr(vp.addr), EncBytes(vp.txData), EncStrVec(vp.keysChanged), keys.rest);
    Ok(Parsed(vp, keys.rest))
  }

  function EncodeStorageReadInput(m: StorageReadInput): (r: seq<byte>)
    requires m.Valid()
    ensures |r| == 8 + |m.addr| + |m.key|
  {
    EncStr(m.addr) + EncStr(m.key)
  }

  function ParseStorageReadInput(s: seq<byte>): (r: Result<Parsed<StorageReadInput>>)
    ensures r.Ok? ==> r.value.value.Valid() && s == EncodeStorageReadInput(r.value.value) + r.value.rest
  {
    var addr :- ParseStr(s);
    var key :- ParseStr(addr.rest);
    Ok(Parsed(StorageReadInput(addr.value, key.value), key.rest))
  }

  function EncodeStorageReadOutput(m: StorageReadOutput): (r: seq<byte>)
    requires m.Valid()
    ensures |r| == if m.data.None? then 1 else 5 + |m.data.value|
  {
    EncOptBytes(m.data)
  }

  function ParseStorageReadOutput(s: seq<byte>): (r: Result<Parsed<StorageReadOutput>>)
    ensures r.Ok? ==> r.value.value.Valid() && s == EncodeStorageReadOutput(r.value.value) + r.value.rest
  {
    var data :- ParseOptBytes(s);
    Ok(Parsed(StorageReadOutput(data.value), data.rest))
  }

  function EncodeStorageHasKeyInput(m: StorageHasKeyInput): (r: seq<byte>)
    requires m.Valid()
    ensures |r| == 8 + |m.addr| + |m.key|
  {
    EncStr(m.addr) + EncStr(m.key)
  }

  function ParseStorageHasKeyInput(s: seq<byte>): (r: Result<Parsed<StorageHasKeyInput>>)
    ensures r.Ok? ==> r.value.value.Valid() && s == EncodeStorageHasKeyInput(r.value.value) + r.value.rest
  {
    var addr :- ParseStr(s);
    var key :- ParseStr(addr.rest);
    Ok(Parsed(StorageHasKeyInput(addr.value, key.value), key.rest))
  }

  function EncodeStorageHasKeyOutput(m: StorageHasKeyOutput): (r: seq<byte>)
    ensures |r| == 1 && (r[0] == 1 <==> m.found) && (r[0] == 0 <==> !m.found)
  {
    EncBool(m.found)
  }

  function ParseStorageHasKeyOutput(s: seq<byte>): (r: Result<Parsed<StorageHasKeyOutput>>)
    ensures r.Ok? ==> s == EncodeStorageHasKeyOutput(r.value.value) + r.value.rest
  {
    var found :- ParseBool(s);
    Ok(Parsed(StorageHasKeyOutput(found.value), found.rest))
  }

  function EncodeStorageWriteInput(m: StorageWriteInput): (r: seq<byte>)
    requires m.Valid()
    ensures |r| == 8 + |m.key| + |m.val|
  {
    EncStr(m.key) + EncBytes(m.val)
  }

  function ParseStorageWriteInput(s: seq<byte>): (r: Result<Parsed<StorageWriteInput>>)
    ensures r.Ok? ==> r.value.value.Valid() && s == EncodeStorageWriteInput(r.value.value) + r.value.rest
  {
    var key :- ParseStr(s);
    var val :- ParseBytes(key.rest);
    Ok(Parsed(StorageWriteInput(key.value, val.value), val.rest))
  }

  function EncodeStorageReadSelfInput(m: StorageReadSelfInput): (r: seq<byte>)
    requires m.Valid()
    ensures |r| == 4 + |m.key| && r[4..] == m.key
  {
    EncStr(m.key)
  }

  function ParseStorageReadSelfInput(s: seq<byte>): (r: Result<Parsed<StorageReadSelfInput>>)
    ensures r.Ok? ==> r.value.value.Valid() && s == EncodeStorageReadSelfInput(r.value.value) + r.value.rest
  {
    var key :- ParseStr(s);
    Ok(Parsed(StorageReadSelfInput(key.value), key.rest))
  }

  function EncodeStorageReadSelfOutput(m: StorageReadSelfOutput): (r: seq<byte>)
    requires m.Valid()
    ensures |r| == if m.data.None? then 1 else 5 + |m.data.value|
  {
    EncOptBytes(m.data)
  }

  function ParseStorageReadSelfOutput(s: seq<byte>): (r: Result<Parsed<StorageReadSelfOutput>>)
    ensures r.Ok? ==> r.value.value.Valid() && s == EncodeStorageReadSelfOutput(r.value.value) + r.value.rest
  {
    var data :- ParseOptBytes(s);
    Ok(Parsed(StorageReadSelfOutput(data.value), data.rest))
  }

  function EncodeOtherApprovedInput(m: OtherApprovedInput): (r: seq<byte>)
    requires m.Valid()
    ensures |r| == 4 + |m.addr| && r[4..] == m.addr
  {
    EncStr(m.addr)
  }

  function ParseOtherApprovedInput(s: seq<byte>): (r: Result<Parsed<OtherApprovedInput>>)
    ensures r.Ok? ==> r.value.value.Valid() && s == EncodeOtherApprovedInput(r.value.value) + r.value.rest
  {
    var addr :- ParseStr(s);
    Ok(Parsed(OtherApprovedInput(addr.value), addr.rest))
  }

  function EncodeOtherApprovedOutput(m: OtherApprovedOutput): (r: seq<byte>)
    ensures |r| == 1 && (r[0] == 1 <==> m.approved) && (r[0] == 0 <==> !m.approved)
  {
    EncBool(m.approved)
  }

  function ParseOtherApprovedOutput(s: seq<byte>): (r: Result<Parsed<OtherApprovedOutput>>)
    ensures r.Ok? ==> s == EncodeOtherApprovedOutput(r.value.value) + r.value.rest
  {
    var approved :- ParseBool(s);
    Ok(Parsed(OtherApprovedOutput(approved.value), approved.rest))
  }

  // ---------------------------------------------------------------------------
  // The catalog as a whole

  /** Which type the receiving side expects; known from the call, never from the bytes. */
  datatype Kind =
    | TxInputKind
    | VpInputKind
    | StorageReadInputKind
    | StorageReadOutputKind
    | StorageHasKeyInputKind
    | StorageHasKeyOutputKind
    | StorageWriteInputKind
    | StorageReadSelfInputKind
    | StorageReadSelfOutputKind
    | OtherApprovedInputKind
    | OtherApprovedOutputKind

  /** A value of any type in the catalog. */
  datatype Message =
    | TxInputMsg(txInput: TxInput)
    | VpInputMsg(vpInput: VpInput)
    | StorageReadInputMsg(readInput: StorageReadInput)
    | StorageReadOutputMsg(readOutput: StorageReadOutput)
    | StorageHasKeyInputMsg(hasKeyInput: StorageHasKeyInput)
    | StorageHasKeyOutputMsg(hasKeyOutput: StorageHasKeyOutput)
    | StorageWriteInputMsg(writeInput: StorageWriteInput)
    | StorageReadSelfInputMsg(readSelfInput: StorageReadSelfInput)
    | StorageReadSelfOutputMsg(readSelfOutput: StorageReadSelfOutput)
    | OtherApprovedInputMsg(otherApprovedInput: OtherApprovedInput)
    | OtherApprovedOutputMsg(otherApprovedOutput: OtherApprovedOutput)

  function KindOf(m: Message): Kind {
    match m
    case TxInputMsg(_) => TxInputKind
    case VpInputMsg(_) => VpInputKind
    case StorageReadInputMsg(_) => StorageReadInputKind
    case StorageReadOutputMsg(_) => StorageReadOutputKind
    case StorageHasKeyInputMsg(_) => StorageHasKeyInputKind
    case StorageHasKeyOutputMsg(_) => StorageHasKeyOutputKind
    case StorageWriteInputMsg(_) => StorageWriteInputKind
    case StorageReadSelfInputMsg(_) => StorageReadSelfInputKind
    case StorageReadSelfOutputMsg(_) => StorageReadSelfOutputKind
    case OtherApprovedInputMsg(_) => OtherApprovedInputKind
    case OtherApprovedOutputMsg(_) => OtherApprovedOutputKind
  }

  /** Every length in the message fits its u32 prefix. */
  predicate WellFormed(m: Message) {
    match m
    case TxInputMsg(tx) => Fits(tx)
    case VpInputMsg(vp) => vp.Valid()
    case StorageReadInputMsg(x) => x.Valid()
    case StorageReadOutputMsg(x) => x.Valid()
    case StorageHasKeyInputMsg(x) => x.Valid()
    case StorageHasKeyOutputMsg(_) => true
    case StorageWriteInputMsg(x) => x.Valid()
    case StorageReadSelfInputMsg(x) => x.Valid()
    case StorageReadSelfOutputMsg(x) => x.Valid()
    case OtherApprovedInputMsg(x) => x.Valid()
    case OtherApprovedOutputMsg(_) => true
  }

  /** The Borsh bytes of a message; no encoding is empty. */
  function Encode(m: Message): (r: seq<byte>)
    requires WellFormed(m)
    ensures |r| >= 1
  {
    match m
    case TxInputMsg(tx) => EncodeTxInput(tx)
    case VpInputMsg(vp) => EncodeVpInput(vp)
    case StorageReadInputMsg(x) => EncodeStorageReadInput(x)
    case StorageReadOutputMsg(x) => EncodeStorageReadOutput(x)
    case StorageHasKeyInputMsg(x) => EncodeStorageHasKeyInput(x)
    case StorageHasKeyOutputMsg(x) => EncodeStorageHasKeyOutput(x)
    case StorageWriteInputMsg(x) => EncodeStorageWriteInput(x)
    case StorageReadSelfInputMsg(x) => EncodeStorageReadSelfInput(x)
    case StorageReadSelfOutputMsg(x) => EncodeStorageReadSelfOutput(x)
    case OtherApprovedInputMsg(x) => EncodeOtherApprovedInput(x)
    case OtherApprovedOutputMsg(x) => EncodeOtherApprovedOutput(x)
  }

  /** Parses a message of the expected kind from the front of the buffer. */
  function Parse(k: Kind, s: seq<byte>): (r: Result<Parsed<Message>>)
    ensures r.Ok? ==> KindOf(r.value.value) == k && WellFormed(r.value.value)
    ensures r.Ok? ==> s == Encode(r.value.value) + r.value.rest
  {
    match k
    case TxInputKind =>
      var x :- ParseTxInput(s); Ok(Parsed(TxInputMsg(x.value), x.rest))
    case VpInputKind =>
      var x :- ParseVpInput(s); Ok(Parsed(VpInputMsg(x.value), x.rest))
    case StorageReadInputKind =>
      var x :- ParseStorageReadInput(s); Ok(Parsed(StorageReadInputMsg(x.value), x.rest))
    case StorageReadOutputKind =>
      var x :- ParseStorageReadOutput(s); Ok(Parsed(StorageReadOutputMsg(x.value), x.rest))
    case StorageHasKeyInputKind =>
      var x :- ParseStorageHasKeyInput(s); Ok(Parsed(StorageHasKeyInputMsg(x.value), x.rest))
    case StorageHasKeyOutputKind =>
      var x :- ParseStorageHasKeyOutput(s); Ok(Parsed(StorageHasKeyOutputMsg(x.value), x.rest))
    case StorageWriteInputKind =>
      var x :- ParseStorageWriteInput(s); Ok(Parsed(StorageWriteInputMsg(x.value), x.rest))
    case StorageReadSelfInputKind =>
      var x :- ParseStorageReadSelfInput(s); Ok(Parsed(StorageReadSelfInputMsg(x.value), x.rest))
    case StorageReadSelfOutputKind =>
      var x :- ParseStorageReadSelfOutput(s); Ok(Parsed(StorageReadSelfOutputMsg(x.value), x.rest))
    case OtherApprovedInputKind =>
      var x :- ParseOtherApprovedInput(s); Ok(Parsed(OtherApprovedInputMsg(x.value), x.rest))
    case OtherApprovedOutputKind =>
      var x :- ParseOtherApprovedOutput(s); Ok(Parsed(OtherApprovedOutputMsg(x.value), x.rest))
  }

  /**
   * Decodes a whole buffer as a message of the expected kind, as
   * `try_from_slice` does: any byte left over is an error.
   */
  function Decode(k: Kind, s: seq<byte>): (r: Result<Message>)
    ensures r.Ok? ==> KindOf(r.value) == k && WellFormed(r.value) && s == Encode(r.value)
  {
    Complete(Parse(k, s))
  }
}
