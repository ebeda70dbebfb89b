# Ledger VM memory types and their Borsh wire format, in Dafny

The ledger (the host) runs transaction code and validity predicates ("VPs") as
wasm modules (guests). Host and guest share nothing but wasm linear memory, so
every value that crosses between them is serialised with Borsh, copied as bytes
and deserialised on the other side. The crate `vm_env` declares the catalog of
these memory types:

- the module call inputs, which flow host to guest: `TxInput` (the transaction
  data) and `VpInput` (address, transaction data and changed keys);
- the storage calls, which flow guest to host, with outputs flowing back: read,
  has-key, write (no output) and read-self;
- the other-VP-approved query and its boolean answer.

Each struct derives `BorshSerialize`/`BorshDeserialize`, so its bytes are fixed
by the Borsh rules: a `bool` and an `Option` tag are one byte (0 or 1); a
`String` or `Vec<T>` is a u32 little-endian count followed by the bytes or
elements; struct and tuple fields are concatenated in declaration order with no
tags.

The project has three modules:

- `Borsh` (`borsh.dfy`): the wire primitives. It has an encoder and a parser
  for each of u32, `Vec<u8>`, `String`, `Vec<String>`, `Option<Vec<u8>>` and
  `bool`. A parser returns the value and the bytes after it, or a
  `DecodeError`. `Complete` turns a parser into a whole-buffer decoder, as
  `try_from_slice` does: leftover bytes are `NotAllBytesRead`. Each parser's
  postcondition says that the bytes it accepted are exactly the encoding of
  the value it returned. The round-trip lemmas prove the converse.
- `Memory` (`memory.dfy`): one datatype per catalog type. Each has an
  `Encode…` and a `Parse…` function. A `Valid()` predicate says that every
  length fits in a u32. `Message` and `Kind` join the catalog into one union.
  `Kind` is the type that the receiver expects. No byte on the wire tells the
  receiver which type it is; the receiver knows it from the call it is serving.
  So `Decode` takes the `Kind` as an argument.
- `MemoryLaws` (`memory_laws.dfy`): the laws that host and guest rely on to
  agree on every byte. Decoding inverts encoding. A buffer decodes exactly
  when it is an encoding. Encoding is injective and prefix-free. Truncated or
  over-long buffers are rejected. Absence is distinct from emptiness. Fields
  are laid out in declaration order. A few concrete messages are worked out.

Rust `String` is modelled as its UTF-8 bytes (`seq<byte>`). Borrowed values
(`&TxData`, `&KeysChanged` in `VpInput`) are modelled as owned values, because
Borsh writes a reference exactly like the value it points to.

## Model

| member | source | states |
|---|---|---|
| `Borsh.LE32` | ledger/vm_env/src/lib.rs:4 | a u32 is written as four bytes, and reading them back little-endian gives the same number |
| `Borsh.LE32OfU32Value` | ledger/vm_env/src/lib.rs:4 | every four-byte group is the little-endian encoding of its value, so the two u32 codings are mutually inverse |
| `Borsh.LE32Injective` | ledger/vm_env/src/lib.rs:4 | distinct u32 lengths give distinct prefixes |
| `Borsh.ParseU32` | ledger/vm_env/src/lib.rs:4 | reading a u32 fails exactly when fewer than four bytes remain, with UnexpectedEndOfInput; otherwise the bytes read are the LE32 of the value |
| `Borsh.ParseU32RoundTrip` | ledger/vm_env/src/lib.rs:4 | reading the LE32 of n, followed by any bytes, gives n and exactly those bytes |
| `Borsh.EncBytes` | ledger/vm_env/src/lib.rs:21 | a `Vec<u8>` is 4 + length bytes: a prefix whose value is the length, then the bytes unchanged |
| `Borsh.ParseBytes` | ledger/vm_env/src/lib.rs:21 | succeeds exactly when at least four bytes are present and the bytes after them number at least the length they give; any failure is UnexpectedEndOfInput; on success the consumed bytes are exactly the EncBytes of the result |
| `Borsh.ParseBytesRoundTrip` | ledger/vm_env/src/lib.rs:21 | decoding an encoded byte vector, followed by anything, gives it back together with exactly the following bytes |
| `Borsh.EncStr` | ledger/vm_env/src/lib.rs:35-36 | a `String` is 4 + length bytes, with its bytes unchanged after the prefix (no terminator, no conversion) |
| `Borsh.ParseStr` | ledger/vm_env/src/lib.rs:35-36 | on success the consumed bytes are exactly the EncStr of the decoded string |
| `Borsh.EncStrSeq` | ledger/vm_env/src/lib.rs:25 | the elements of a `Vec<String>` take exactly StrSeqSize bytes, and the first element's encoding comes first |
| `Borsh.ParseStrSeq` | ledger/vm_env/src/lib.rs:25 | parsing n strings yields exactly n strings, each fitting in a u32, whose concatenated encodings are the bytes consumed |
| `Borsh.ParseStrSeqRoundTrip` | ledger/vm_env/src/lib.rs:25 | parsing the encodings of a list of strings gives the same strings in the same order, duplicates kept |
| `Borsh.EncStrVec` | ledger/vm_env/src/lib.rs:25 | a `Vec<String>` is a count prefix whose value is the number of keys, followed by StrSeqSize bytes |
| `Borsh.ParseStrVec` | ledger/vm_env/src/lib.rs:25 | on success the consumed bytes are exactly the EncStrVec of the decoded list |
| `Borsh.ParseStrVecRoundTrip` | ledger/vm_env/src/lib.rs:25 | decoding an encoded `Vec<String>` gives back the same list and exactly the following bytes |
| `Borsh.EncOptBytes` | ledger/vm_env/src/lib.rs:41 | `None` is the single byte 0; `Some(v)` is the byte 1 followed by EncBytes(v), 5 + length bytes in all |
| `Borsh.ParseOptBytes` | ledger/vm_env/src/lib.rs:41 | succeeds exactly on tag 0, or on tag 1 followed by a complete byte vector; an empty buffer fails with UnexpectedEndOfInput; a tag above 1 fails with InvalidOptionTag; on success the consumed bytes are exactly the encoding of the result |
| `Borsh.ParseOptBytesRoundTrip` | ledger/vm_env/src/lib.rs:41 | both `None` and `Some(v)`, including `Some([])`, decode back to themselves |
| `Borsh.EncBool` | ledger/vm_env/src/lib.rs:50 | a bool is one byte, 1 exactly for true and 0 for false |
| `Borsh.ParseBool` | ledger/vm_env/src/lib.rs:50 | succeeds exactly when the first byte is 0 or 1; no byte fails with UnexpectedEndOfInput; a byte above 1 fails with InvalidBool; on success the byte read is the EncBool of the result |
| `Borsh.ParseBoolRoundTrip` | ledger/vm_env/src/lib.rs:50 | both bools decode back to themselves, consuming one byte |
| `Borsh.Complete` | ledger/vm_env/src/lib.rs:4 | a whole-buffer decode succeeds exactly when the parse succeeds with nothing left; leftover bytes give NotAllBytesRead, and a parse error is passed on unchanged |
| `Memory.EncodeTxInput` | ledger/vm_env/src/lib.rs:21-28 | a transaction input is its data as a `Vec<u8>`: 4 + length bytes, with the data unchanged after the prefix |
| `Memory.ParseTxInput` | ledger/vm_env/src/lib.rs:21-28 | on success the consumed bytes are exactly the encoding of the decoded data |
| `Memory.EncodeVpInput` | ledger/vm_env/src/lib.rs:30-31 | a VP input takes 12 + address + data + StrSeqSize(keys) bytes |
| `Memory.ParseVpInput` | ledger/vm_env/src/lib.rs:30-31 | on success the decoded tuple is valid and its encoding is exactly the bytes consumed |
| `Memory.EncodeStorageReadInput` | ledger/vm_env/src/lib.rs:33-37 | a read input takes 8 + address + key bytes |
| `Memory.ParseStorageReadInput` | ledger/vm_env/src/lib.rs:33-37 | on success the consumed bytes are exactly the encoding of the decoded struct |
| `Memory.EncodeStorageReadOutput` | ledger/vm_env/src/lib.rs:39-42 | a read output takes 1 byte when absent and 5 + length bytes when present |
| `Memory.ParseStorageReadOutput` | ledger/vm_env/src/lib.rs:39-42 | on success the consumed bytes are exactly the encoding of the decoded struct |
| `Memory.EncodeStorageHasKeyInput` | ledger/vm_env/src/lib.rs:44-48 | a has-key input takes 8 + address + key bytes |
| `Memory.ParseStorageHasKeyInput` | ledger/vm_env/src/lib.rs:44-48 | on success the consumed bytes are exactly the encoding of the decoded struct |
| `Memory.EncodeStorageHasKeyOutput` | ledger/vm_env/src/lib.rs:49-50 | a has-key answer is one byte: 1 when found, 0 when not |
| `Memory.ParseStorageHasKeyOutput` | ledger/vm_env/src/lib.rs:49-50 | on success the byte consumed is exactly the encoding of the decoded answer |
| `Memory.EncodeStorageWriteInput` | ledger/vm_env/src/lib.rs:52-57 | a write input takes 8 + key + value bytes |
| `Memory.ParseStorageWriteInput` | ledger/vm_env/src/lib.rs:52-57 | on success the consumed bytes are exactly the encoding of the decoded struct |
| `Memory.EncodeStorageReadSelfInput` | ledger/vm_env/src/lib.rs:59-62 | a read-self input takes 4 + key bytes, and the key follows the prefix unchanged |
| `Memory.ParseStorageReadSelfInput` | ledger/vm_env/src/lib.rs:59-62 | on success the consumed bytes are exactly the encoding of the decoded struct |
| `Memory.EncodeStorageReadSelfOutput` | ledger/vm_env/src/lib.rs:64-67 | a read-self output takes 1 byte when absent and 5 + length bytes when present |
| `Memory.ParseStorageReadSelfOutput` | ledger/vm_env/src/lib.rs:64-67 | on success the consumed bytes are exactly the encoding of the decoded struct |
| `Memory.EncodeOtherApprovedInput` | ledger/vm_env/src/lib.rs:69-73 | an other-approved query takes 4 + address bytes, and the address follows the prefix unchanged |
| `Memory.ParseOtherApprovedInput` | ledger/vm_env/src/lib.rs:69-73 | on success the consumed bytes are exactly the encoding of the decoded struct |
| `Memory.EncodeOtherApprovedOutput` | ledger/vm_env/src/lib.rs:75-76 | an approval answer is one byte: 1 when approved, 0 when not |
| `Memory.ParseOtherApprovedOutput` | ledger/vm_env/src/lib.rs:75-76 | on success the byte consumed is exactly the encoding of the decoded answer |
| `Memory.Encode` | ledger/vm_env/src/lib.rs:16-76 | every message in the catalog encodes to at least one byte |
| `Memory.Parse` | ledger/vm_env/src/lib.rs:16-76 | a successful parse for an expected kind yields a valid message of that kind whose encoding is exactly the bytes consumed |
| `Memory.Decode` | ledger/vm_env/src/lib.rs:16-76 | a successful whole-buffer decode yields a valid message of the expected kind whose encoding is the entire buffer |
| `MemoryLaws.TxInputRoundTrip` | ledger/vm_env/src/lib.rs:28 | a transaction input parses back from its bytes, whatever follows them |
| `MemoryLaws.VpInputRoundTrip` | ledger/vm_env/src/lib.rs:31 | a VP input parses back from its bytes, whatever follows them |
| `MemoryLaws.StorageReadInputRoundTrip` | ledger/vm_env/src/lib.rs:33-37 | a read input parses back from its bytes, whatever follows them |
| `MemoryLaws.StorageReadOutputRoundTrip` | ledger/vm_env/src/lib.rs:39-42 | a read output parses back from its bytes, whatever follows them |
| `MemoryLaws.StorageHasKeyInputRoundTrip` | ledger/vm_env/src/lib.rs:44-48 | a has-key input parses back from its bytes, whatever follows them |
| `MemoryLaws.StorageHasKeyOutputRoundTrip` | ledger/vm_env/src/lib.rs:49-50 | a has-key answer parses back from its byte, whatever follows it |
| `MemoryLaws.StorageWriteInputRoundTrip` | ledger/vm_env/src/lib.rs:53-57 | a write input parses back from its bytes, whatever follows them |
| `MemoryLaws.StorageReadSelfInputRoundTrip` | ledger/vm_env/src/lib.rs:59-62 | a read-self input parses back from its bytes, whatever follows them |
| `MemoryLaws.StorageReadSelfOutputRoundTrip` | ledger/vm_env/src/lib.rs:64-67 | a read-self output parses back from its bytes, whatever follows them |
| `MemoryLaws.OtherApprovedInputRoundTrip` | ledger/vm_env/src/lib.rs:70-73 | an other-approved query parses back from its bytes, whatever follows them |
| `MemoryLaws.OtherApprovedOutputRoundTrip` | ledger/vm_env/src/lib.rs:75-76 | an approval answer parses back from its byte, whatever follows it |
| `MemoryLaws.ParseEncodeRoundTrip` | ledger/vm_env/src/lib.rs:33-76 | for every catalog message, parsing its encoding plus any bytes gives the message and exactly those bytes |
| `MemoryLaws.DecodeEncode` | ledger/vm_env/src/lib.rs:33-76 | decoding the encoding of any valid message gives exactly that message and consumes every byte |
| `MemoryLaws.DecodeIffEncode` | ledger/vm_env/src/lib.rs:33-76 | a buffer decodes to m for kind k if and only if m is a valid message of kind k and the buffer is its encoding |
| `MemoryLaws.EncodeInjective` | ledger/vm_env/src/lib.rs:33-76 | two valid messages of the same type with equal bytes are equal |
| `MemoryLaws.DecodeRejectsTrailingBytes` | ledger/vm_env/src/lib.rs:33-76 | a valid encoding followed by one or more extra bytes fails with NotAllBytesRead |
| `MemoryLaws.EncodePrefixFree` | ledger/vm_env/src/lib.rs:33-76 | no encoding is a strict prefix of another encoding of the same type |
| `MemoryLaws.DecodeRejectsIncomplete` | ledger/vm_env/src/lib.rs:33-76 | a buffer that a non-empty tail would complete to a valid encoding does not decode |
| `MemoryLaws.DecodeRejectsStrictPrefix` | ledger/vm_env/src/lib.rs:33-76 | every strict prefix of a valid encoding fails to decode, rather than yielding a partial value |
| `MemoryLaws.StorageReadOutputAbsentIsNotEmpty` | ledger/vm_env/src/lib.rs:39-42 | `data: None` is `[0]`, `data: Some([])` is `[1,0,0,0,0]`, and each decodes back to its own variant |
| `MemoryLaws.StorageReadSelfOutputAbsentIsNotEmpty` | ledger/vm_env/src/lib.rs:64-67 | the same absent/empty distinction for the read-self output |
| `MemoryLaws.StorageHasKeyOutputIsOneByte` | ledger/vm_env/src/lib.rs:49-50 | the answer is one byte, 0 or 1; an empty buffer fails with UnexpectedEndOfInput and any byte above 1 fails with InvalidBool |
| `MemoryLaws.OtherApprovedOutputIsOneByte` | ledger/vm_env/src/lib.rs:75-76 | the answer is one byte, 0 or 1; an empty buffer fails with UnexpectedEndOfInput and any byte above 1 fails with InvalidBool |
| `MemoryLaws.StorageReadInputLayout` | ledger/vm_env/src/lib.rs:34-37 | the bytes are the address's length and bytes, then the key's length and bytes, with no field tags |
| `MemoryLaws.StorageWriteInputLayout` | ledger/vm_env/src/lib.rs:54-57 | the bytes are the key's length and bytes, then the value's length and bytes, with no field tags |
| `MemoryLaws.ReadAndHasKeyInputsShareWireForm` | ledger/vm_env/src/lib.rs:34-48 | a read input and a has-key input with the same address and key have identical bytes; the read's bytes decode as the has-key input, so only the call identifies the operation |
| `MemoryLaws.StorageReadSelfInputCarriesOnlyKey` | ledger/vm_env/src/lib.rs:59-62 | a read-self input is the key's length and bytes only, 4 + length of the address shorter than a read input for the same key |
| `MemoryLaws.VpInputLayout` | ledger/vm_env/src/lib.rs:21-31 | the bytes are the address, then the transaction data, then the key count, then each key in order |
| `MemoryLaws.VpInputDecodedView` | ledger/vm_env/src/lib.rs:21-31 | the guest's decoded VP input has the same address, the same data bytes and the same keys at every position, duplicates kept |
| `MemoryLaws.EncStrShort` | ledger/vm_env/src/lib.rs:35-36 | a string shorter than 256 bytes is written as its length byte, three zero bytes, then its bytes |
| `MemoryLaws.HasKeyInputAliceBalance` | ledger/vm_env/src/lib.rs:44-48 | `{addr: "alice", key: "balance"}` is the 20 bytes `5,0,0,0,"alice",7,0,0,0,"balance"` and decodes back to the same struct |
| `MemoryLaws.WriteInputXOneTwoThree` | ledger/vm_env/src/lib.rs:53-57 | `{key: "x", val: [1,2,3]}` is `1,0,0,0,"x",3,0,0,0,1,2,3` and decodes back to the same struct |
| `MemoryLaws.KeysChangedOrderKept` | ledger/vm_env/src/lib.rs:25 | keys `["a","b"]` decode as `["a","b"]`, and `["b","a"]` has different bytes |

## Left out

- Copying bytes into and out of wasm linear memory, and passing pointer/length pairs, are not in the modelled file. The model works on byte sequences.
- The host's storage engine and write log, which carry out read, has-key and write, are not modelled. Only the shapes of the messages are.
- UTF-8 validation when Borsh decodes a `String` is not modelled. Strings are byte sequences, so an invalid UTF-8 string that Rust would reject is accepted here.
- The lifetime `'a` and the borrowing in `VpInput` are not modelled. The references are plain owned values, which Borsh encodes identically.
- The `Clone` and `Debug` derives are not modelled. They do not affect the bytes.
- The internals of the `borsh` crate are not modelled beyond its wire rules, and its version is not visible. The model follows the Borsh format: a bool or an Option tag other than 0 or 1 is an error.
- The VP entry point's boolean result and the dispatch between operations are not modelled. No type in the file represents them. Dispatch appears only as the `Kind` argument to `Decode`.
- Values with a length of 2^32 or more are not modelled. The encoders require every length to fit its u32 prefix, so what Rust does on such a value is not captured.
