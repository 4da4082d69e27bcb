/** The gas charged for verifying signatures (app/sigverify.go). */
module SigGas {

  const SECP256K1_VERIFY_COST: nat := 21000

  datatype PubKey = Secp256k1 | EthSecp256k1 | Ed25519 | Multisig(keys: seq<PubKey>) | UnsupportedKey

  /** Signature data: a multisignature names its signers by a bit array. */
  datatype SigData = Single | Multi(bits: seq<bool>, sigs: seq<SigData>)

  datatype Verdict = Charged | InvalidPubKey | WrongSigData | IndexOutOfRange | OutOfGas

  /** A gas meter; exceeding the limit aborts the transaction. */
  class GasMeter {
    var consumed: nat
    const limit: nat

    constructor (limit: nat)
      ensures consumed == 0 && this.limit == limit
    {
      this.limit := limit;
      consumed := 0;
    }

    method ConsumeGas(amount: nat) returns (ok: bool)
      modifies this
      ensures consumed == old(consumed) + amount && ok == (consumed <= limit)
    {
      consumed := consumed + amount;
      ok := consumed <= limit;
    }
  }

  // ----- specification ------------------------------------------------------

  /** How many of the first `n` bits are set: the place of the next signature. */
  function Rank(bits: seq<bool>, n: nat): (r: nat)
    requires n <= |bits|
    ensures r <= n
  {
    if n == 0 then 0 else Rank(bits, n - 1) + (if bits[n - 1] then 1 else 0)
  }

  /** Bit `i` names a key that exists and a signature that exists. */
  predicate InRange(keys: seq<PubKey>, sig: SigData, i: nat)
    requires sig.Multi? && i < |sig.bits|
  {
    i < |keys| && Rank(sig.bits, i) < |sig.sigs|
  }

  /** Every key below a set bit can be charged for. */
  ghost predicate Chargeable(key: PubKey, sig: SigData)
    decreases key
  {
    match key
    case Secp256k1 => true
    case EthSecp256k1 => true
    case Ed25519 => false
    case UnsupportedKey => false
    case Multisig(keys) =>
      sig.Multi? && forall i :: 0 <= i < |sig.bits| && sig.bits[i] ==>
                       InRange(keys, sig, i) && Chargeable(keys[i], sig.sigs[Rank(sig.bits, i)])
  }

  /** The number of leaf keys reached over set bits. */
  ghost function Signers(key: PubKey, sig: SigData): nat
    decreases key, 1, 0
  {
    if key.Multisig? then
      (if sig.Multi? then SignersUpTo(key, sig, |sig.bits|) else 0)
    else 1
  }

  ghost function SignersUpTo(key: PubKey, sig: SigData, n: nat): nat
    requires key.Multisig? && sig.Multi? && n <= |sig.bits|
    decreases key, 0, n
  {
    if n == 0 then 0
    else SignersUpTo(key, sig, n - 1)
         + (if sig.bits[n - 1] && InRange(key.keys, sig, n - 1)
            then Signers(key.keys[n - 1], sig.sigs[Rank(sig.bits, n - 1)]) else 0)
  }

  /** Bit arrays no longer than their key lists, with a signature for every set bit. */
  ghost predicate WellFormed(key: PubKey, sig: SigData)
    decreases key
  {
    key.Multisig? && sig.Multi? ==>
      && |sig.bits| <= |key.keys|
      && Rank(sig.bits, |sig.bits|) <= |sig.sigs|
      && forall i :: 0 <= i < |sig.bits| && sig.bits[i] && InRange(key.keys, sig, i) ==>
           WellFormed(key.keys[i], sig.sigs[Rank(sig.bits, i)])
  }

  lemma {:induction false} SignersGrow(key: PubKey, sig: SigData, n: nat, k: nat)
    requires key.Multisig? && sig.Multi? && n <= k <= |sig.bits|
    ensures SignersUpTo(key, sig, n) <= SignersUpTo(key, sig, k)
    decreases k
  {
    if n < k {
      SignersGrow(key, sig, n, k - 1);
    }
  }

  lemma {:induction false} RankGrows(bits: seq<bool>, n: nat, k: nat)
    requires n <= k <= |bits|
    ensures Rank(bits, n) <= Rank(bits, k)
    decreases k
  {
    if n < k {
      RankGrows(bits, n, k - 1);
    }
  }

  /** In a well-formed tree no set bit leads out of range. */
  lemma WellFormedInRange(key: PubKey, sig: SigData, i: nat)
    requires key.Multisig? && sig.Multi? && WellFormed(key, sig) && i < |sig.bits| && sig.bits[i]
    ensures InRange(key.keys, sig, i)
  {
    RankGrows(sig.bits, i + 1, |sig.bits|);
  }

  // ----- the consumers ------------------------------------------------------

  /** All of a key's signers can be charged and the meter has room for them. */
  ghost predicate Affordable(key: PubKey, sig: SigData, consumed: nat, limit: nat)
  {
    Chargeable(key, sig) && consumed + 21000 * Signers(key, sig) <= limit
  }

  /** The outcome for a single key: an ed25519 key is charged for and then refused. */
  ghost function LeafVerdict(key: PubKey, consumed: nat, limit: nat, ed25519Cost: nat): Verdict
  {
    match key
    case Secp256k1 => if consumed + 21000 <= limit then Charged else OutOfGas
    case EthSecp256k1 => if consumed + 21000 <= limit then Charged else OutOfGas
    case Ed25519 => if consumed + ed25519Cost <= limit then InvalidPubKey else OutOfGas
    case _ => InvalidPubKey
  }

  /**
   SigVerificationGasConsumer.  Succeeds exactly if every key below a set bit is a
   secp256k1 key and the gas suffices, and then has charged 21000 for each of them.
   */
  method SigVerificationGasConsumer(meter: GasMeter, key: PubKey, sig: SigData, ed25519Cost: nat) returns (v: Verdict)
    requires meter.consumed <= meter.limit
    modifies meter
    ensures v.Charged? <==> Affordable(key, sig, old(meter.consumed), meter.limit)
    ensures v.Charged? ==> meter.consumed == old(meter.consumed) + 21000 * Signers(key, sig)
    ensures v.IndexOutOfRange? ==> !WellFormed(key, sig)
    ensures !key.Multisig? ==> v == LeafVerdict(key, old(meter.consumed), meter.limit, ed25519Cost)
    ensures key.Multisig? && sig.Single? ==> v == WrongSigData && meter.consumed == old(meter.consumed)
    decreases key, 2
  {
    if key.Secp256k1? {
      var ok := meter.ConsumeGas(SECP256K1_VERIFY_COST);
      return if ok then Charged else OutOfGas;
    }
    v := CantoSigVerificationGasConsumer(meter, key, sig, ed25519Cost);
  }

  /** CantoSigVerificationGasConsumer: the same, but for a plain secp256k1 key on top, which it does not know. */
  method CantoSigVerificationGasConsumer(meter: GasMeter, key: PubKey, sig: SigData, ed25519Cost: nat) returns (v: Verdict)
    requires meter.consumed <= meter.limit
    modifies meter
    ensures v.Charged? <==> !key.Secp256k1? && Affordable(key, sig, old(meter.consumed), meter.limit)
    ensures v.Charged? ==> meter.consumed == old(meter.consumed) + 21000 * Signers(key, sig)
    ensures v.IndexOutOfRange? ==> !WellFormed(key, sig)
    ensures !key.Multisig? && !key.Secp256k1? ==> v == LeafVerdict(key, old(meter.consumed), meter.limit, ed25519Cost)
    ensures key.Secp256k1? ==> v == InvalidPubKey
    ensures key.Multisig? && sig.Single? ==> v == WrongSigData && meter.consumed == old(meter.consumed)
    decreases key, 1
  {
    match key
    case EthSecp256k1 =>
      var ok := meter.ConsumeGas(SECP256K1_VERIFY_COST);
      return if ok then Charged else OutOfGas;
    case Ed25519 =>
      var ok := meter.ConsumeGas(ed25519Cost);
      return if ok then InvalidPubKey else OutOfGas;
    case Multisig(_) =>
      if sig.Single? {
        return WrongSigData;
      }
      v := ConsumeMultisignatureVerificationGas(meter, sig, key, ed25519Cost);
    case _ =>
      return InvalidPubKey;
  }

  method ConsumeMultisignatureVerificationGas(meter: GasMeter, sig: SigData, key: PubKey, ed25519Cost: nat) returns (v: Verdict)
    requires meter.consumed <= meter.limit && key.Multisig? && sig.Multi?
    modifies meter
    ensures v.Charged? <==> Affordable(key, sig, old(meter.consumed), meter.limit)
    ensures v.Charged? ==> meter.consumed == old(meter.consumed) + 21000 * Signers(key, sig)
    ensures v.IndexOutOfRange? ==> !WellFormed(key, sig)
    decreases key, 0
  {
    var size, sigIndex := |sig.bits|, 0;
    for i := 0 to size
      invariant sigIndex == Rank(sig.bits, i)
      invariant meter.consumed == old(meter.consumed) + 21000 * SignersUpTo(key, sig, i) <= meter.limit
      invariant forall j :: 0 <= j < i && sig.bits[j] ==>
                  InRange(key.keys, sig, j) && Chargeable(key.keys[j], sig.sigs[Rank(sig.bits, j)])
    {
      if !sig.bits[i] {
        continue;
      }
      if i >= |key.keys| || sigIndex >= |sig.sigs| {
        assert !InRange(key.keys, sig, i);
        if WellFormed(key, sig) {
          WellFormedInRange(key, sig, i);
        }
        return IndexOutOfRange;
      }
      var child := SigVerificationGasConsumer(meter, key.keys[i], sig.sigs[sigIndex], ed25519Cost);
      if !child.Charged? {
        SignersGrow(key, sig, i + 1, size);
        return child;
      }
      sigIndex := sigIndex + 1;
    }
    return Charged;
  }
}
