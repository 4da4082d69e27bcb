/**
 How the signature of an Ethereum transaction is brought into the 65-byte form from which
 the public key is recovered, fork by fork (app/ante/eth_set_pubkey.go).
 The recovery itself is not part of this model: results are the bytes handed to it.
 */
module PubKeyRecovery {
  import opened GoInts

  /** The order of secp256k1. */
  const SECP256K1_N: int := 0xFFFF_FFFF_FFFF_FFFF_FFFF_FFFF_FFFF_FFFE_BAAE_DCE6_AF48_A03B_BFD2_5E8C_D036_4141

  datatype TxType = LegacyTx | AccessListTx | DynamicFeeTx

  /** `chainId` is the explicit chain identifier of the typed transactions. */
  datatype Tx = Tx(kind: TxType, v: nat, r: nat, s: nat, chainId: nat)

  datatype Error = InvalidChainId | TxTypeNotSupported | InvalidSig
  datatype Result = Sig(bytes: seq<byte>) | Bad(error: Error)

  datatype Fork = London | Berlin | EIP155 | Homestead | Frontier

  // ----- go-ethereum's side -------------------------------------------------

  /** Transaction.Protected. */
  predicate Protected(tx: Tx)
  {
    tx.kind != LegacyTx || !(tx.v == 27 || tx.v == 28 || tx.v == 1 || tx.v == 0)
  }

  /** Transaction.ChainId; for legacy transactions derived from V, below 2^64 in 64-bit arithmetic. */
  function ChainId(tx: Tx): int
  {
    if tx.kind != LegacyTx then tx.chainId
    else if tx.v < 0x1_0000_0000_0000_0000 then
      (if tx.v == 27 || tx.v == 28 then 0 else Uint64(tx.v - 35) / 2)
    else (tx.v - 35) / 2
  }

  /** crypto.ValidateSignatureValues. */
  predicate ValidSignature(v: int, r: nat, s: nat, homestead: bool)
  {
    && 1 <= r < SECP256K1_N
    && 1 <= s < SECP256K1_N
    && (homestead ==> s <= SECP256K1_N / 2)
    && (v == 0 || v == 1)
  }

  // ----- fixed-width numbers ------------------------------------------------

  /** The big-endian bytes of `n` in exactly `k` places. */
  function Padded(n: nat, k: nat): (b: seq<byte>)
    ensures |b| == k
  {
    if k == 0 then [] else Padded(n / 256, k - 1) + [n % 256]
  }

  /** big.Int.Bytes: without leading zeros. */
  function MinimalBytes(n: nat): (b: seq<byte>)
  {
    if n == 0 then [] else MinimalBytes(n / 256) + [n % 256]
  }

  function BigEndian(b: seq<byte>): nat
  {
    if b == [] then 0 else BigEndian(b[..|b| - 1]) * 256 + b[|b| - 1]
  }

  function Pow256(k: nat): nat
  {
    if k == 0 then 1 else 256 * Pow256(k - 1)
  }

  lemma {:induction false} PaddedValue(n: nat, k: nat)
    requires n < Pow256(k)
    ensures BigEndian(Padded(n, k)) == n
    decreases k
  {
    if k > 0 {
      PaddedValue(n / 256, k - 1);
      assert Padded(n, k)[..k - 1] == Padded(n / 256, k - 1);
    }
  }

  function Zeros(k: nat): (z: seq<byte>)
    ensures |z| == k && forall i :: 0 <= i < k ==> z[i] == 0
  {
    if k == 0 then [] else Zeros(k - 1) + [0]
  }

  lemma {:induction false} PaddedZero(k: nat)
    ensures Padded(0, k) == Zeros(k)
    decreases k
  {
    if k > 0 {
      PaddedZero(k - 1);
    }
  }

  /** Right-aligning the minimal bytes in zeros gives the padded form; nothing is cut off. */
  lemma {:induction false} MinimalFits(n: nat, k: nat)
    requires n < Pow256(k)
    ensures |MinimalBytes(n)| <= k
    ensures Zeros(k - |MinimalBytes(n)|) + MinimalBytes(n) == Padded(n, k)
    decreases k
  {
    if n == 0 {
      PaddedZero(k);
    } else {
      MinimalFits(n / 256, k - 1);
      var z, m := Zeros(k - |MinimalBytes(n)|), MinimalBytes(n / 256);
      assert z + (m + [n % 256]) == (z + m) + [n % 256];
    }
  }

  lemma OrderFits()
    ensures SECP256K1_N < Pow256(32)
  {
    assert Pow256(8) == 0x1_0000_0000_0000_0000;
    Pow256Add(8, 8);
    Pow256Add(16, 16);
    assert Pow256(16) == 0x1_0000_0000_0000_0000_0000_0000_0000_0000;
  }

  lemma {:induction false} Pow256Add(i: nat, j: nat)
    ensures Pow256(i + j) == Pow256(i) * Pow256(j)
    decreases i
  {
    if i > 0 {
      Pow256Add(i - 1, j);
      assert Pow256(i + j) == 256 * Pow256(i - 1 + j) && Pow256(i) == 256 * Pow256(i - 1);
      hide Pow256;
      Scale(Pow256(i - 1), Pow256(j));
    }
  }

  lemma Scale(x: nat, y: nat)
    ensures 256 * (x * y) == (256 * x) * y
  {
  }

  // ----- recoverPubKeyBase --------------------------------------------------

  /** byte(Vb.Uint64() - 27) for a V of at most eight bits. */
  function RecoveryByte(vb: int): (b: byte)
  {
    ((if vb >= 0 then vb else -vb) - 27) % 256
  }

  /** R and S in 32 bytes each, then the recovery byte. */
  function Signature65(r: nat, s: nat, v: byte): (b: seq<byte>)
    ensures |b| == 65
  {
    Padded(r, 32) + Padded(s, 32) + [v]
  }

  function RecoverBase(r: nat, s: nat, vb: int, homestead: bool): Result
  {
    if vb <= -256 || vb >= 256 then Bad(InvalidSig)
    else if !ValidSignature(RecoveryByte(vb), r, s, homestead) then Bad(InvalidSig)
    else Sig(Signature65(r, s, RecoveryByte(vb)))
  }

  /** Go's `copy` of `b` into a slice of 32 bytes starting at `lo`, aligned to its end. */
  method CopyAligned(buf: array<byte>, lo: nat, b: seq<byte>)
    requires lo + 32 <= buf.Length && |b| <= 32
    requires forall i :: lo <= i < lo + 32 ==> buf[i] == 0
    modifies buf
    ensures buf[lo..lo + 32] == Zeros(32 - |b|) + b
    ensures forall i :: 0 <= i < buf.Length && !(lo <= i < lo + 32) ==> buf[i] == old(buf[i])
  {
    var at := lo + 32 - |b|;
    forall i | 0 <= i < |b| {
      buf[at + i] := b[i];
    }
  }

  /** The 65-byte buffer from minimal numbers and the recovery byte. */
  method FillSignature(rb: seq<byte>, sb: seq<byte>, v: byte) returns (sig: array<byte>)
    requires |rb| <= 32 && |sb| <= 32
    ensures fresh(sig) && sig[..] == (Zeros(32 - |rb|) + rb) + (Zeros(32 - |sb|) + sb) + [v]
  {
    hide Zeros;
    sig := new byte[65](_ => 0);
    CopyAligned(sig, 0, rb);
    assert sig[..32] == sig[0..32];
    label first:
    CopyAligned(sig, 32, sb);
    assert sig[..32] == old@first(sig[..32]);
    sig[64] := v;
    assert sig[..] == sig[..32] + sig[32..64] + [v];
  }

  /** recoverPubKeyBase up to the recovery: fills the 65-byte buffer in place. */
  method RecoverPubKeyBase(r: nat, s: nat, vb: int, homestead: bool) returns (res: Result)
    ensures res == RecoverBase(r, s, vb, homestead)
  {
    if vb <= -256 || vb >= 256 {
      return Bad(InvalidSig);
    }
    var v := RecoveryByte(vb);
    if !ValidSignature(v, r, s, homestead) {
      return Bad(InvalidSig);
    }
    OrderFits();
    hide MinimalBytes, Padded, Pow256, Zeros;
    MinimalFits(r, 32);
    MinimalFits(s, 32);
    var sig := FillSignature(MinimalBytes(r), MinimalBytes(s), v);
    return Sig(sig[..]);
  }

  // ----- the fork paths -----------------------------------------------------

  function HomesteadPath(tx: Tx): Result
  {
    if tx.kind != LegacyTx then Bad(TxTypeNotSupported) else RecoverBase(tx.r, tx.s, tx.v, true)
  }

  function FrontierPath(tx: Tx): Result
  {
    if tx.kind != LegacyTx then Bad(TxTypeNotSupported) else RecoverBase(tx.r, tx.s, tx.v, false)
  }

  function Eip155Path(chainId: nat, tx: Tx): Result
  {
    if tx.kind != LegacyTx then Bad(TxTypeNotSupported)
    else if !Protected(tx) then HomesteadPath(tx)
    else if ChainId(tx) != chainId then Bad(InvalidChainId)
    else RecoverBase(tx.r, tx.s, tx.v - 2 * chainId - 8, true)
  }

  function Eip2930Path(chainId: nat, tx: Tx): Result
  {
    match tx.kind
    case LegacyTx =>
      if !Protected(tx) then HomesteadPath(tx)
      else if ChainId(tx) != chainId then Bad(InvalidChainId)
      else RecoverBase(tx.r, tx.s, tx.v - 2 * chainId - 8, true)
    case AccessListTx =>
      if ChainId(tx) != chainId then Bad(InvalidChainId)
      else RecoverBase(tx.r, tx.s, tx.v + 27, true)
    case DynamicFeeTx => Bad(TxTypeNotSupported)
  }

  function LondonPath(chainId: nat, tx: Tx): Result
  {
    if tx.kind != DynamicFeeTx then Eip2930Path(chainId, tx)
    else if ChainId(tx) != chainId then Bad(InvalidChainId)
    else RecoverBase(tx.r, tx.s, tx.v + 27, true)
  }

  /** recoverPubKey's dispatch on the fork in force. */
  function Recover(fork: Fork, chainId: nat, tx: Tx): Result
  {
    match fork
    case London => LondonPath(chainId, tx)
    case Berlin => Eip2930Path(chainId, tx)
    case EIP155 => Eip155Path(chainId, tx)
    case Homestead => HomesteadPath(tx)
    case Frontier => FrontierPath(tx)
  }

  // ----- what the paths agree on --------------------------------------------

  /** The buffer carries R, S and the parity, each in its place. */
  ghost predicate Carries(b: seq<byte>, r: nat, s: nat, p: nat)
  {
    |b| == 65 && BigEndian(b[..32]) == r && BigEndian(b[32..64]) == s && b[64] == p
  }

  lemma SignatureCarries(r: nat, s: nat, v: byte)
    requires r < SECP256K1_N && s < SECP256K1_N
    ensures Carries(Signature65(r, s, v), r, s, v)
  {
    OrderFits();
    PaddedValue(r, 32);
    PaddedValue(s, 32);
    hide Padded, BigEndian, Pow256;
    var b := Signature65(r, s, v);
    assert b[..32] == Padded(r, 32);
    assert b[32..64] == Padded(s, 32);
  }

  /** Which transactions a fork knows. */
  ghost predicate Known(fork: Fork, kind: TxType)
  {
    kind == LegacyTx || fork == London || (fork == Berlin && kind == AccessListTx)
  }

  /** How a signer encodes the parity `p` into V. */
  ghost predicate EncodesParity(fork: Fork, chainId: nat, tx: Tx, p: nat)
  {
    if tx.kind != LegacyTx then tx.v == p && tx.chainId == chainId
    else tx.v == 27 + p || (fork in {London, Berlin, EIP155} && tx.v == 2 * chainId + 35 + p)
  }

  /** R and S are positive and below the curve's order, S from Homestead on in its lower half. */
  ghost predicate InOrder(fork: Fork, tx: Tx)
  {
    && 0 < tx.r < 0xFFFF_FFFF_FFFF_FFFF_FFFF_FFFF_FFFF_FFFE_BAAE_DCE6_AF48_A03B_BFD2_5E8C_D036_4141
    && 0 < tx.s < 0xFFFF_FFFF_FFFF_FFFF_FFFF_FFFF_FFFF_FFFE_BAAE_DCE6_AF48_A03B_BFD2_5E8C_D036_4141
    && (fork != Frontier ==> 2 * tx.s <= 0xFFFF_FFFF_FFFF_FFFF_FFFF_FFFF_FFFF_FFFE_BAAE_DCE6_AF48_A03B_BFD2_5E8C_D036_4141)
  }

  lemma InOrderIff(fork: Fork, tx: Tx, p: nat)
    requires p <= 1
    ensures InOrder(fork, tx) <==> ValidSignature(p, tx.r, tx.s, fork != Frontier)
  {
  }

  /** A legacy transaction's V, in every representation. */
  lemma LegacyV(chainId: nat, tx: Tx)
    requires tx.kind == LegacyTx && Protected(tx) && ChainId(tx) == chainId
    ensures var w := tx.v - 2 * chainId - 8; -256 < w < 256 ==> w == 27 || w == 28
    ensures tx.v >= 35 ==> tx.v == 2 * chainId + 35 || tx.v == 2 * chainId + 36
  {
  }

  lemma LegacyChainId(chainId: nat, tx: Tx, p: nat)
    requires tx.kind == LegacyTx && p <= 1 && tx.v == 2 * chainId + 35 + p
    ensures Protected(tx) && ChainId(tx) == chainId
  {
  }

  lemma BaseParity(r: nat, s: nat, vb: int, homestead: bool, p: nat)
    requires p <= 1
    ensures vb == 27 + p ==> RecoverBase(r, s, vb, homestead)
                             == if ValidSignature(p, r, s, homestead) then Sig(Signature65(r, s, p)) else Bad(InvalidSig)
  {
  }

  /**
   Signature normalisation: on every fork path and for every chain, a transaction of a
   type the fork knows whose V encodes parity p and whose R and S are valid ends in a buffer
   that carries exactly R, S and p.
   */
  lemma Normalises(fork: Fork, chainId: nat, tx: Tx, p: nat)
    requires p <= 1 && Known(fork, tx.kind) && EncodesParity(fork, chainId, tx, p)
    requires InOrder(fork, tx)
    ensures Recover(fork, chainId, tx) == Sig(Signature65(tx.r, tx.s, p))
    ensures Carries(Signature65(tx.r, tx.s, p), tx.r, tx.s, p)
  {
    InOrderIff(fork, tx, p);
    SignatureCarries(tx.r, tx.s, p);
    BaseParity(tx.r, tx.s, 27 + p, true, p);
    BaseParity(tx.r, tx.s, 27 + p, false, p);
    hide RecoverBase, Signature65, ValidSignature, Carries, InOrder;
    if tx.kind == LegacyTx && tx.v == 2 * chainId + 35 + p {
      LegacyChainId(chainId, tx, p);
    }
  }

  /** A legacy transaction, valid or not, fares the same under London, Berlin and EIP-155. */
  lemma LegacyAgrees(chainId: nat, tx: Tx)
    requires tx.kind == LegacyTx
    ensures Recover(London, chainId, tx) == Recover(Berlin, chainId, tx) == Recover(EIP155, chainId, tx)
  {
  }

  lemma BaseAccepts(r: nat, s: nat, vb: int, homestead: bool)
    ensures RecoverBase(r, s, vb, homestead).Sig? ==>
              && -256 < vb < 256
              && ValidSignature(RecoveryByte(vb), r, s, homestead)
              && RecoverBase(r, s, vb, homestead) == Sig(Signature65(r, s, RecoveryByte(vb)))
    ensures 0 <= vb < 256 && RecoverBase(r, s, vb, homestead).Sig? ==> vb == 27 || vb == 28
  {
  }

  /**
   And nothing else is accepted: a signature that gets through encodes some parity,
   has valid R and S, and is the one handed on.
   */
  lemma AcceptsOnlyEncodings(fork: Fork, chainId: nat, tx: Tx)
    requires Recover(fork, chainId, tx).Sig?
    ensures Known(fork, tx.kind)
    ensures exists p: nat ::
              && p <= 1
              && EncodesParity(fork, chainId, tx, p)
              && InOrder(fork, tx)
              && Recover(fork, chainId, tx) == Sig(Signature65(tx.r, tx.s, p))
  {
    hide RecoverBase, Signature65, ValidSignature, InOrder;
    var homestead := fork != Frontier;
    var vb :=
      if tx.kind != LegacyTx then tx.v + 27
      else if fork in {London, Berlin, EIP155} && Protected(tx) then tx.v - 2 * chainId - 8
      else tx.v;
    BaseAccepts(tx.r, tx.s, vb, homestead);
    assert vb == 27 || vb == 28 by {
      if tx.kind == LegacyTx && fork in {London, Berlin, EIP155} && Protected(tx) {
        LegacyV(chainId, tx);
      }
    }
    var p := vb - 27;
    InOrderIff(fork, tx, p);
    assert RecoveryByte(vb) == p;
    assert EncodesParity(fork, chainId, tx, p);
  }

  /** Why a transaction is refused: its kind first, then its chain, and only then its signature. */
  lemma Refusals(fork: Fork, chainId: nat, tx: Tx)
    ensures Recover(fork, chainId, tx) == Bad(TxTypeNotSupported) <==> !Known(fork, tx.kind)
    ensures Recover(fork, chainId, tx) == Bad(InvalidChainId)
            <==> && Known(fork, tx.kind)
                 && if tx.kind != LegacyTx then tx.chainId != chainId
                    else fork in {London, Berlin, EIP155} && tx.v !in {0, 1, 27, 28} && ChainId(tx) != chainId
  {
    BaseRefuses(tx.r, tx.s, tx.v, true);
    BaseRefuses(tx.r, tx.s, tx.v, false);
    BaseRefuses(tx.r, tx.s, tx.v + 27, true);
    BaseRefuses(tx.r, tx.s, tx.v - 2 * chainId - 8, true);
    hide RecoverBase, ChainId;
    TypedChainId(tx);
  }

  lemma TypedChainId(tx: Tx)
    ensures tx.kind != LegacyTx ==> ChainId(tx) == tx.chainId
  {
  }

  lemma BaseRefuses(r: nat, s: nat, vb: int, homestead: bool)
    ensures var o := RecoverBase(r, s, vb, homestead); o.Sig? || o == Bad(InvalidSig)
  {
  }
}
