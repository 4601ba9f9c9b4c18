/** The gateway locking script: the standard pay-to-pubkey-hash script
    prefixed by `<gHash> OP_DROP`, and its pay-to-script-hash (BIP 16)
    output and address (chains/chains-bitcoin/src/script/index.ts). */
module GatewayScript {
  import opened Wrappers

  type Byte = b: int | 0 <= b < 256
  type Bytes = seq<Byte>

  /** The opcodes the gateway script uses. */
  datatype Opcode = OpDrop | OpDup | OpHash160 | OpEqualVerify | OpCheckSig

  /** A script element: a data push or an opcode. */
  datatype Element = Push(data: Bytes) | Op(code: Opcode)

  type Script = seq<Element>

  /** `script.addData(data)`. */
  function AddData(s: Script, data: Bytes): Script {
    s + [Push(data)]
  }

  /** `script.addOp(op)`. */
  function AddOp(s: Script, op: Opcode): Script {
    s + [Op(op)]
  }

  /** `gatewayScript(gGubKeyHash, gHash)`, built by the same chain of
      `addData` and `addOp` calls as the source. */
  function GatewayScript(pubKeyHash: Bytes, gHash: Bytes): (s: Script)
    ensures s == [Push(gHash), Op(OpDrop)] + PayToPubKeyHash(pubKeyHash)
  {
    var s := AddData([], gHash);
    var s := AddOp(s, OpDrop);
    var s := AddOp(s, OpDup);
    var s := AddOp(s, OpHash160);
    var s := AddData(s, pubKeyHash);
    var s := AddOp(s, OpEqualVerify);
    AddOp(s, OpCheckSig)
  }

  /** The standard pay-to-pubkey-hash locking script. */
  function PayToPubKeyHash(pubKeyHash: Bytes): (s: Script) {
    [Op(OpDup), Op(OpHash160), Push(pubKeyHash), Op(OpEqualVerify), Op(OpCheckSig)]
  }

  /** The gateway script is `<gHash> OP_DROP` followed by the standard
      pay-to-pubkey-hash script: seven elements in all. */
  lemma GatewayScriptLayout(pubKeyHash: Bytes, gHash: Bytes)
    ensures GatewayScript(pubKeyHash, gHash) == [Push(gHash), Op(OpDrop)] + PayToPubKeyHash(pubKeyHash)
    ensures |GatewayScript(pubKeyHash, gHash)| == 7
  {
  }

  /** Recognises a gateway script and recovers `(pubKeyHash, gHash)`. */
  function ParseGatewayScript(s: Script): (r: Option<(Bytes, Bytes)>)
    ensures r.Some? ==> s == GatewayScript(r.value.0, r.value.1)
  {
    if |s| == 7 && s[0].Push? && s[4].Push?
       && s[1] == Op(OpDrop) && s[2] == Op(OpDup) && s[3] == Op(OpHash160)
       && s[5] == Op(OpEqualVerify) && s[6] == Op(OpCheckSig)
    then Some((s[4].data, s[0].data))
    else None
  }

  /** Both hashes are embedded verbatim and can be read back. */
  lemma ParseGatewayScriptRoundTrip(pubKeyHash: Bytes, gHash: Bytes)
    ensures ParseGatewayScript(GatewayScript(pubKeyHash, gHash)) == Some((pubKeyHash, gHash))
  {
  }

  /** Distinct inputs give distinct gateway scripts. */
  lemma GatewayScriptInjective(pubKeyHash1: Bytes, gHash1: Bytes, pubKeyHash2: Bytes, gHash2: Bytes)
    requires GatewayScript(pubKeyHash1, gHash1) == GatewayScript(pubKeyHash2, gHash2)
    ensures pubKeyHash1 == pubKeyHash2 && gHash1 == gHash2
  {
    ParseGatewayScriptRoundTrip(pubKeyHash1, gHash1);
    ParseGatewayScriptRoundTrip(pubKeyHash2, gHash2);
  }

  // ---------------------------------------------------------------------
  // The gateway address and the pay-to-script-hash output
  // ---------------------------------------------------------------------

  /** `createAddress(addressToString)(gGubKeyHash, gHash, prefix)`.
      `toAddress` stands for `Script.toAddress` (the script hash behind a
      version prefix) and `addressToString` for the chain's encoder. */
  function CreateAddress(addressToString: Bytes -> string, toAddress: (Script, Bytes) -> Bytes,
                         pubKeyHash: Bytes, gHash: Bytes, prefix: Bytes): (address: string)
    ensures address == addressToString(toAddress([Push(gHash), Op(OpDrop)] + PayToPubKeyHash(pubKeyHash), prefix))
  {
    addressToString(toAddress(GatewayScript(pubKeyHash, gHash), prefix))
  }

  /** `pubKeyScript(gGubKeyHash, gHash)`; `toScriptHashOut` stands for
      `Script.toScriptHashOut`. */
  function PubKeyScript(toScriptHashOut: Script -> Script, pubKeyHash: Bytes, gHash: Bytes): (out: Script)
    ensures out == toScriptHashOut([Push(gHash), Op(OpDrop)] + PayToPubKeyHash(pubKeyHash))
  {
    toScriptHashOut(GatewayScript(pubKeyHash, gHash))
  }

  /** The address and the output script are derived from one and the same
      gateway script, whatever the encoder and the hashing behind them. */
  lemma AddressAndOutputShareScript(addressToString: Bytes -> string, toAddress: (Script, Bytes) -> Bytes,
                                    toScriptHashOut: Script -> Script,
                                    pubKeyHash: Bytes, gHash: Bytes, prefix: Bytes)
    ensures var s := [Push(gHash), Op(OpDrop)] + PayToPubKeyHash(pubKeyHash);
            && CreateAddress(addressToString, toAddress, pubKeyHash, gHash, prefix) == addressToString(toAddress(s, prefix))
            && PubKeyScript(toScriptHashOut, pubKeyHash, gHash) == toScriptHashOut(s)
  {
    GatewayScriptLayout(pubKeyHash, gHash);
  }

  /** When the encoder and the script-to-address step are injective, distinct
      `(pubKeyHash, gHash)` pairs give distinct gateway addresses under the
      same prefix. */
  lemma DistinctInputsDistinctAddresses(addressToString: Bytes -> string, toAddress: (Script, Bytes) -> Bytes,
                                        pubKeyHash1: Bytes, gHash1: Bytes,
                                        pubKeyHash2: Bytes, gHash2: Bytes, prefix: Bytes)
    requires forall a: Bytes, b: Bytes :: addressToString(a) == addressToString(b) ==> a == b
    requires forall s: Script, t: Script :: toAddress(s, prefix) == toAddress(t, prefix) ==> s == t
    requires pubKeyHash1 != pubKeyHash2 || gHash1 != gHash2
    ensures CreateAddress(addressToString, toAddress, pubKeyHash1, gHash1, prefix)
            != CreateAddress(addressToString, toAddress, pubKeyHash2, gHash2, prefix)
  {
    if CreateAddress(addressToString, toAddress, pubKeyHash1, gHash1, prefix)
       == CreateAddress(addressToString, toAddress, pubKeyHash2, gHash2, prefix) {
      GatewayScriptInjective(pubKeyHash1, gHash1, pubKeyHash2, gHash2);
    }
  }

  // ---------------------------------------------------------------------
  // Byte serialisation of scripts
  // ---------------------------------------------------------------------

  const OpPushData1: Byte := 0x4c
  const OpPushData2: Byte := 0x4d
  const OpPushData4: Byte := 0x4e

  function OpcodeByte(op: Opcode): Byte {
    match op
    case OpDrop => 0x75
    case OpDup => 0x76
    case OpHash160 => 0xa9
    case OpEqualVerify => 0x88
    case OpCheckSig => 0xac
  }

  function ByteOpcode(b: Byte): (r: Option<Opcode>)
    ensures r.Some? ==> OpcodeByte(r.value) == b
  {
    if b == 0x75 then Some(OpDrop)
    else if b == 0x76 then Some(OpDup)
    else if b == 0xa9 then Some(OpHash160)
    else if b == 0x88 then Some(OpEqualVerify)
    else if b == 0xac then Some(OpCheckSig)
    else None
  }

  function Pow256(width: nat): (p: nat)
    ensures p >= 1
  {
    if width == 0 then 1 else 256 * Pow256(width - 1)
  }

  /** `n` as `width` little-endian bytes. */
  function LittleEndian(n: nat, width: nat): (r: Bytes)
    ensures |r| == width
  {
    if width == 0 then [] else [n % 256] + LittleEndian(n / 256, width - 1)
  }

  function FromLittleEndian(b: Bytes): nat {
    if b == [] then 0 else b[0] + 256 * FromLittleEndian(b[1..])
  }

  lemma {:induction false} LittleEndianRoundTrip(n: nat, width: nat)
    requires n < Pow256(width)
    ensures FromLittleEndian(LittleEndian(n, width)) == n
  {
    if width > 0 {
      assert n / 256 < Pow256(width - 1);
      LittleEndianRoundTrip(n / 256, width - 1);
      assert LittleEndian(n, width)[1..] == LittleEndian(n / 256, width - 1);
    }
  }

  /** A data push: the length itself below 76 bytes, otherwise
      OP_PUSHDATA1, OP_PUSHDATA2 or OP_PUSHDATA4 and a 1-, 2- or 4-byte
      little-endian length; no push is 2^32 bytes or longer. */
  function EncodePush(data: Bytes): Option<Bytes> {
    var n := |data|;
    if n < 0x4c then Some([n] + data)
    else if n < 0x100 then Some([OpPushData1, n] + data)
    else if n < 0x1_0000 then Some([OpPushData2] + LittleEndian(n, 2) + data)
    else if n < 0x1_0000_0000 then Some([OpPushData4] + LittleEndian(n, 4) + data)
    else None
  }

  function EncodeElement(e: Element): Option<Bytes> {
    match e
    case Push(data) => EncodePush(data)
    case Op(code) => Some([OpcodeByte(code)])
  }

  /** The serialised script, or None if some push is too long. */
  function Encode(s: Script): Option<Bytes> {
    if s == [] then Some([])
    else
      var head := EncodeElement(s[0]);
      var tail := Encode(s[1..]);
      if head.None? || tail.None? then None else Some(head.value + tail.value)
  }

  /** The header of a push at the start of `b`: its own length and the
      length of the data after it. */
  function PushHeader(b: Bytes): (r: Option<(nat, nat)>)
    requires |b| >= 1
    ensures r.Some? ==> 1 <= r.value.0 <= |b|
  {
    var op := b[0];
    if op < OpPushData1 then Some((1, op))
    else if op == OpPushData1 && |b| >= 2 then Some((2, b[1]))
    else if op == OpPushData2 && |b| >= 3 then Some((3, FromLittleEndian(b[1..3])))
    else if op == OpPushData4 && |b| >= 5 then Some((5, FromLittleEndian(b[1..5])))
    else None
  }

  function Prepend(e: Element, rest: Option<Script>): Option<Script> {
    if rest.None? then None else Some([e] + rest.value)
  }

  /** Parses serialised bytes back into script elements. */
  function Decode(b: Bytes): Option<Script>
    decreases |b|
  {
    if b == [] then Some([])
    else
      var header := PushHeader(b);
      if header.Some? then
        var (h, n) := header.value;
        if h + n > |b| then None else Prepend(Push(b[h..h + n]), Decode(b[h + n..]))
      else
        var code := ByteOpcode(b[0]);
        if code.None? then None else Prepend(Op(code.value), Decode(b[1..]))
  }

  /** Decoding an encoded element followed by more bytes yields the element
      followed by the decoding of the rest. */
  lemma DecodeElement(e: Element, rest: Bytes)
    requires EncodeElement(e).Some?
    ensures Decode(EncodeElement(e).value + rest) == Prepend(e, Decode(rest))
  {
    var b := EncodeElement(e).value + rest;
    match e {
      case Op(code) =>
        assert b[1..] == rest;
      case Push(data) =>
        var n := |data|;
        var h := if n < 0x4c then 1 else if n < 0x100 then 2 else if n < 0x1_0000 then 3 else 5;
        if n >= 0x100 && n < 0x1_0000 {
          assert b[1..3] == LittleEndian(n, 2);
          LittleEndianRoundTrip(n, 2);
        } else if n >= 0x1_0000 {
          assert b[1..5] == LittleEndian(n, 4);
          LittleEndianRoundTrip(n, 4);
        }
        assert PushHeader(b) == Some((h, n));
        assert b[h..h + n] == data;
        assert b[h + n..] == rest;
    }
  }

  /** Decoding undoes encoding. */
  lemma {:induction false} DecodeEncode(s: Script)
    requires Encode(s).Some?
    ensures Decode(Encode(s).value) == Some(s)
  {
    if s != [] {
      DecodeEncode(s[1..]);
      DecodeElement(s[0], Encode(s[1..]).value);
      assert [s[0]] + s[1..] == s;
    }
  }

  /** With a 32-byte gateway hash and a 20-byte public-key hash, the
      gateway script serialises to 59 bytes:
      0x20 gHash OP_DROP OP_DUP OP_HASH160 0x14 pubKeyHash OP_EQUALVERIFY OP_CHECKSIG. */
  lemma GatewayScriptBytes(pubKeyHash: Bytes, gHash: Bytes)
    requires |pubKeyHash| == 20 && |gHash| == 32
    ensures Encode(GatewayScript(pubKeyHash, gHash))
            == Some([0x20] + gHash + [0x75, 0x76, 0xa9, 0x14] + pubKeyHash + [0x88, 0xac])
  {
    var s7: Script := [];
    var s6 := [Op(OpCheckSig)] + s7;
    var s5 := [Op(OpEqualVerify)] + s6;
    var s4 := [Push(pubKeyHash)] + s5;
    var s3 := [Op(OpHash160)] + s4;
    var s2 := [Op(OpDup)] + s3;
    var s1 := [Op(OpDrop)] + s2;
    var s0 := [Push(gHash)] + s1;
    EncodeOpThen(OpCheckSig, s7);
    EncodeOpThen(OpEqualVerify, s6);
    EncodeShortPushThen(pubKeyHash, s5);
    EncodeOpThen(OpHash160, s4);
    EncodeOpThen(OpDup, s3);
    EncodeOpThen(OpDrop, s2);
    EncodeShortPushThen(gHash, s1);
    assert GatewayScript(pubKeyHash, gHash) == s0;
    var b7: Bytes := [];
    var b6: Bytes := [0xac] + b7;
    var b5: Bytes := [0x88] + b6;
    var b4: Bytes := [0x14] + pubKeyHash + b5;
    var b3: Bytes := [0xa9] + b4;
    var b2: Bytes := [0x76] + b3;
    var b1: Bytes := [0x75] + b2;
    var b0: Bytes := [0x20] + gHash + b1;
    assert Encode(s0) == Some(b0);
    assert b0 == [0x20] + gHash + [0x75, 0x76, 0xa9, 0x14] + pubKeyHash + [0x88, 0xac];
  }

  lemma EncodeOpThen(code: Opcode, rest: Script)
    requires Encode(rest).Some?
    ensures Encode([Op(code)] + rest) == Some([OpcodeByte(code)] + Encode(rest).value)
  {
    assert ([Op(code)] + rest)[1..] == rest;
  }

  lemma EncodeShortPushThen(data: Bytes, rest: Script)
    requires |data| < 0x4c && Encode(rest).Some?
    ensures Encode([Push(data)] + rest) == Some([|data|] + data + Encode(rest).value)
  {
    assert ([Push(data)] + rest)[1..] == rest;
  }
}
