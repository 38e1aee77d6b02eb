# RLP boolean encoder of reec, in Dafny

This project models the start of the RLP (Recursive Length Prefix) encoder of the reec
Ethereum client, `crates/core/src/rlp/encode.rs`. RLP is the canonical serialisation of
Appendix B of the Ethereum Yellow Paper. The file defines:

- the `RLPEncode` capability: `encode` appends a value's bytes to a caller-owned,
  append-only byte sink, and a default `length` encodes into a fresh scratch `Vec` and
  returns how many bytes were written;
- its one instance, for `bool`: `true` appends the byte `0x01`, `false` appends `0x080`
  (that is 0x80, the RLP item of the empty string), and `length` is overridden to 1.

Files:

- `rlp_reference.dfy`, module `RlpReference`: the `Byte` type, and the Appendix B rule
  for byte strings of at most 55 bytes (`ShortString`). It is a reference definition used
  to state what the boolean bytes mean. It is not an encoder of the repository.
- `rlp_encode.dfy`, module `RlpEncode`: the sink as a class `Sink` whose `data: seq<Byte>`
  is what has been written so far (`PutU8` is `BufMut::put_u8`, the constructor is
  `Vec::new()`), the method `EncodeBool` (`encode` for `bool`), the method
  `DefaultLength` (the trait's default `length`, run for a boolean), the function
  `BoolLength` (the override), the function `BoolEncoding` that specifies the appended
  bytes, and lemmas about encoding several booleans one after another into one buffer.

Because traits are not used here, the generic capability is represented by its one
instance: the default `length` is modelled as it would run for `bool`, so that the
override can be proved equal to it.

## Model

| member | source | states |
|---|---|---|
| RlpEncode.BoolEncoding | crates/core/src/rlp/encode.rs:18-23 | the bytes appended for a boolean are one byte: the Appendix B item of the one-byte string [0x01] for `true` and of the empty string for `false` |
| RlpEncode.EncodeBool | crates/core/src/rlp/encode.rs:18-24 | the buffer afterwards is its old contents followed by `BoolEncoding(v)`: the old contents stay a prefix, nothing is overwritten, and the appended bytes depend on `v` alone |
| RlpEncode.Sink.constructor | crates/core/src/rlp/encode.rs:10 | a fresh scratch buffer is empty |
| RlpEncode.Sink.PutU8 | crates/core/src/rlp/encode.rs:20-22 | writing one byte appends exactly that byte at the end |
| RlpEncode.DefaultLength | crates/core/src/rlp/encode.rs:9-13 | the default `length`, encoding into its own scratch buffer and modifying no caller object, returns the number of bytes `encode` appends, and that equals the override |
| RlpEncode.BoolLength | crates/core/src/rlp/encode.rs:26-29 | the overridden `length` (constant 1) equals the number of bytes `encode` appends, for both `true` and `false` |
| RlpEncode.BoolEncodingBytes | crates/core/src/rlp/encode.rs:19-23 | `true` encodes to exactly [0x01] and `false` to exactly [128], the value of the literal `0x080` |
| RlpEncode.BoolEncodingInjective | crates/core/src/rlp/encode.rs:19-23 | two booleans have equal encodings if and only if they are equal |
| RlpEncode.EncodeEach | crates/core/src/rlp/encode.rs:18-23 | encoding booleans one after another into one buffer adds exactly one byte per value |
| RlpEncode.EncodeEachAt | crates/core/src/rlp/encode.rs:18-23 | the i-th byte of booleans encoded one after another is the encoding of the i-th value, whatever precedes it |
| RlpEncode.EncodeEachAppend | crates/core/src/rlp/encode.rs:18-23 | encoding `a` and then `b` into one buffer gives the same bytes as encoding `a + b` |
| RlpEncode.EncodeEachInjective | crates/core/src/rlp/encode.rs:18-23 | the bytes of booleans encoded one after another determine the booleans and their order |
| RlpEncode.EncodeEachPrefix | crates/core/src/rlp/encode.rs:18-23 | the boolean encodings are prefix-free: if the bytes of `a` begin those of `b`, then `a` begins `b` |

## Left out

- The `IpAddr`, `Ipv4Addr`, `Ipv6Addr` and `ArrayVec` imports (encode.rs lines 1 and 4): no encoder for integers, byte strings, lists or IP addresses is defined in the file, so none is modelled; `RlpReference.ShortString` is only a reference definition from Appendix B.
- The genericity of `RLPEncode` over all implementing types: only the `bool` instance exists in the file, and the default `length` is modelled for it.
- `BufMut` and `Vec` internals, allocation failure and capacity: the sink is a sequence of bytes that can always grow.
- `usize` width of `length` and of the buffer length: lengths are unbounded `nat`s; the only value returned is 1.
- `#[inline(always)]`: a code-generation hint with no behaviour.
- The RPC crate (`crates/rpc`) and the server start-up (`reec/src/main.rs`): JSON-RPC glue, HTTP routing, constant replies and logging, with no invariants of their own.
