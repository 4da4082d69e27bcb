/** The filter for transactions on a locked chain (x/lockup/ante.go). */
module Lockup {

  const SEND_URL := "/cosmos.bank.v1beta1.MsgSend"
  const MULTI_SEND_URL := "/cosmos.bank.v1beta1.MsgMultiSend"
  const TRANSFER_URL := "/ibc.applications.transfer.v1.MsgTransfer"
  const MICROTX_URL := "/althea.microtx.v1.MsgMicrotx"
  const ETHEREUM_TX_URL := "/ethermint.evm.v1.MsgEthereumTx"
  const SET_WITHDRAW_ADDRESS_URL := "/cosmos.distribution.v1beta1.MsgSetWithdrawAddress"
  const EXEC_URL := "/cosmos.authz.v1beta1.MsgExec"

  /** The type of a message the filter has no case for. */
  type OtherUrl = u: string |
    u !in {SEND_URL, MULTI_SEND_URL, TRANSFER_URL, MICROTX_URL, ETHEREUM_TX_URL, SET_WITHDRAW_ADDRESS_URL, EXEC_URL}
    witness ""

  datatype Input = Input(address: string, denoms: seq<string>)

  datatype Msg =
    | MsgSend(fromAddress: string, denoms: seq<string>)
    | MsgMultiSend(inputs: seq<Input>)
    | MsgTransfer(sender: string, denom: string)
    | MsgMicrotx(sender: string, denom: string)
    // `signer` is the sender's address in the chain's own notation
    | MsgEthereumTx(signer: string)
    | MsgSetWithdrawAddress
    | MsgExec(msgs: seq<Any>)
    | OtherMsg(typeUrl: OtherUrl)

  /** A packed message; one whose type is unknown cannot be unpacked. */
  datatype Any = Packed(msg: Msg) | Unknown

  datatype Params = Params(exempt: set<string>, lockedTypes: set<string>, lockedDenoms: set<string>)

  function TypeURL(m: Msg): string
  {
    match m
    case MsgSend(_, _) => SEND_URL
    case MsgMultiSend(_) => MULTI_SEND_URL
    case MsgTransfer(_, _) => TRANSFER_URL
    case MsgMicrotx(_, _) => MICROTX_URL
    case MsgEthereumTx(_) => ETHEREUM_TX_URL
    case MsgSetWithdrawAddress => SET_WITHDRAW_ADDRESS_URL
    case MsgExec(_) => EXEC_URL
    case OtherMsg(url) => url
  }

  // ----- the rule, declared -------------------------------------------------

  /** The accounts a message takes coins from, each with a denomination taken. */
  ghost function Sources(m: Msg): set<(string, string)>
  {
    match m
    case MsgSend(x, ds) => set d | d in ds :: (x, d)
    case MsgMultiSend(inputs) => set i, d | i in inputs && d in i.denoms :: (i.address, d)
    case MsgTransfer(x, d) => {(x, d)}
    case MsgMicrotx(x, d) => {(x, d)}
    case _ => {}
  }

  /** The message types the filter can look into. */
  ghost predicate Handled(m: Msg)
  {
    m.MsgSend? || m.MsgMultiSend? || m.MsgTransfer? || m.MsgMicrotx? || m.MsgEthereumTx?
  }

  /**
   What a single message may do on a locked chain: no withdraw address may be set, only
   exempt accounts run EVM transactions, and a message of a locked type takes no locked
   coin from an account that is not exempt.
   */
  ghost predicate LeafRule(k: Params, m: Msg)
  {
    && !m.MsgSetWithdrawAddress?
    && (m.MsgEthereumTx? ==> m.signer in k.exempt)
    && (OfLockedType(k, m) ==>
          Handled(m) && forall s :: s in Sources(m) && s.1 in k.lockedDenoms ==> s.0 in k.exempt)
  }

  ghost predicate OfLockedType(k: Params, m: Msg)
  {
    match m
    case MsgSend(_, _) => "/cosmos.bank.v1beta1.MsgSend" in k.lockedTypes
    case MsgMultiSend(_) => "/cosmos.bank.v1beta1.MsgMultiSend" in k.lockedTypes
    case MsgTransfer(_, _) => "/ibc.applications.transfer.v1.MsgTransfer" in k.lockedTypes
    case MsgMicrotx(_, _) => "/althea.microtx.v1.MsgMicrotx" in k.lockedTypes
    case MsgEthereumTx(_) => "/ethermint.evm.v1.MsgEthereumTx" in k.lockedTypes
    case MsgSetWithdrawAddress => "/cosmos.distribution.v1beta1.MsgSetWithdrawAddress" in k.lockedTypes
    case MsgExec(_) => "/cosmos.authz.v1beta1.MsgExec" in k.lockedTypes
    case OtherMsg(url) => url in k.lockedTypes
  }

  /** How deep authz wrappers are nested. */
  ghost function Depth(m: Msg): nat
    decreases m, 2
  {
    if m.MsgExec? then 1 + MaxDepth(m.msgs) else 0
  }

  ghost function MaxDepth(xs: seq<Any>): nat
    decreases xs, 0
  {
    if xs == [] then 0
    else
      var d, e := DepthOf(xs[0]), MaxDepth(xs[1..]);
      if d > e then d else e
  }

  ghost function DepthOf(x: Any): nat
    decreases x, 1
  {
    if x.Packed? then Depth(x.msg) else 0
  }

  /** The messages under all wrappers. */
  ghost function Leaves(m: Msg): seq<Msg>
    decreases m, 2
  {
    if m.MsgExec? then AllLeaves(m.msgs) else [m]
  }

  ghost function AllLeaves(xs: seq<Any>): seq<Msg>
    decreases xs, 0
  {
    if xs == [] then [] else LeavesOf(xs[0]) + AllLeaves(xs[1..])
  }

  ghost function LeavesOf(x: Any): seq<Msg>
    decreases x, 1
  {
    if x.Packed? then Leaves(x.msg) else []
  }

  /** Nothing under the wrappers fails to unpack. */
  ghost predicate Unpacks(m: Msg)
    decreases m, 1
  {
    m.MsgExec? ==> forall x :: x in m.msgs ==> UnpacksTo(x)
  }

  ghost predicate UnpacksTo(x: Any)
    decreases x, 0
  {
    x.Packed? && Unpacks(x.msg)
  }

  /** At most one wrapper, and every message below it obeys the rule. */
  ghost predicate Admissible(k: Params, m: Msg)
  {
    Depth(m) <= 1 && Unpacks(m) && forall leaf :: leaf in Leaves(m) ==> LeafRule(k, leaf)
  }

  // ----- the filter ---------------------------------------------------------

  method AllowMultiSend(inputs: seq<Input>, k: Params) returns (ok: bool)
    ensures ok <==> forall s :: s in Sources(MsgMultiSend(inputs)) && s.1 in k.lockedDenoms ==> s.0 in k.exempt
  {
    for n := 0 to |inputs|
      invariant forall i, d :: 0 <= i < n && d in inputs[i].denoms && d in k.lockedDenoms ==> inputs[i].address in k.exempt
    {
      var lockedToken, blockedAddress := false, false;
      var denoms := inputs[n].denoms;
      for j := 0 to |denoms|
        invariant lockedToken <==> exists i :: 0 <= i < j && denoms[i] in k.lockedDenoms
      {
        if denoms[j] in k.lockedDenoms {
          lockedToken := true;
        }
      }
      if inputs[n].address !in k.exempt {
        blockedAddress := true;
      }
      if lockedToken && blockedAddress {
        var i :| 0 <= i < |denoms| && denoms[i] in k.lockedDenoms;
        ghost var s := (inputs[n].address, denoms[i]);
        assert inputs[n] in inputs && s in Sources(MsgMultiSend(inputs));
        return false;
      }
    }
    return true;
  }

  method AllowMessage(m: Msg, k: Params) returns (ok: bool)
    ensures ok <==>
              && Handled(m)
              && (m.MsgEthereumTx? ==> m.signer in k.exempt)
              && forall s :: s in Sources(m) && s.1 in k.lockedDenoms ==> s.0 in k.exempt
  {
    match m
    case MsgSend(from, denoms) =>
      if from !in k.exempt {
        for j := 0 to |denoms|
          invariant forall i :: 0 <= i < j ==> denoms[i] !in k.lockedDenoms
        {
          if denoms[j] in k.lockedDenoms {
            assert (from, denoms[j]) in Sources(m);
            return false;
          }
        }
      }
      return true;
    case MsgMultiSend(inputs) =>
      ok := AllowMultiSend(inputs, k);
    case MsgTransfer(sender, denom) =>
      assert (sender, denom) in Sources(m);
      return sender in k.exempt || denom !in k.lockedDenoms;
    case MsgMicrotx(sender, denom) =>
      assert (sender, denom) in Sources(m);
      return sender in k.exempt || denom !in k.lockedDenoms;
    case MsgEthereumTx(signer) =>
      return signer in k.exempt;
    case _ =>
      return false;
  }

  /** isAcceptable. */
  method IsAcceptable(m: Msg, k: Params) returns (ok: bool)
    ensures ok <==> !m.MsgExec? && LeafRule(k, m)
  {
    if TypeURL(m) in k.lockedTypes {
      ok := AllowMessage(m, k);
      return;
    }
    if m.MsgSetWithdrawAddress? {
      return false;
    }
    if m.MsgExec? {
      return false;
    }
    if m.MsgEthereumTx? {
      ok := AllowMessage(m, k);
      return;
    }
    return true;
  }

  lemma DepthOfOne(x: Any)
    ensures DepthOf(x) == 0 <==> (x.Packed? ==> !x.msg.MsgExec?)
    ensures x.Packed? && !x.msg.MsgExec? ==> LeavesOf(x) == [x.msg]
    ensures x.Packed? && !x.msg.MsgExec? ==> UnpacksTo(x)
  {
    if x.Packed? {
      assert Depth(x.msg) == 0 <==> !x.msg.MsgExec?;
      assert !x.msg.MsgExec? ==> Leaves(x.msg) == [x.msg] && Unpacks(x.msg);
    }
  }

  lemma {:induction false} FlatDepth(xs: seq<Any>)
    ensures MaxDepth(xs) == 0 <==> forall x :: x in xs && x.Packed? ==> !x.msg.MsgExec?
    decreases |xs|
  {
    if xs != [] {
      FlatDepth(xs[1..]);
      DepthOfOne(xs[0]);
      assert forall x :: x in xs <==> x == xs[0] || x in xs[1..];
    }
  }

  lemma {:induction false} FlatLeaves(xs: seq<Any>)
    requires forall x :: x in xs && x.Packed? ==> !x.msg.MsgExec?
    ensures forall m :: m in AllLeaves(xs) <==> Packed(m) in xs
    decreases |xs|
  {
    if xs != [] {
      FlatLeaves(xs[1..]);
      assert xs[0] in xs;
      DepthOfOne(xs[0]);
      assert forall x :: x in xs <==> x == xs[0] || x in xs[1..];
    }
  }

  /** A wrapper is admissible exactly if each message in it unpacks to a leaf that obeys the rule. */
  lemma WrapperAdmissible(k: Params, xs: seq<Any>)
    ensures Admissible(k, MsgExec(xs))
            <==> forall x :: x in xs ==> x.Packed? && !x.msg.MsgExec? && LeafRule(k, x.msg)
  {
    hide LeafRule, MaxDepth, AllLeaves;
    FlatDepth(xs);
    var flat := forall x :: x in xs && x.Packed? ==> !x.msg.MsgExec?;
    assert Depth(MsgExec(xs)) == 1 + MaxDepth(xs);
    if flat {
      FlatLeaves(xs);
      assert Leaves(MsgExec(xs)) == AllLeaves(xs);
      forall x | x in xs && x.Packed?
        ensures UnpacksTo(x)
      {
        DepthOfOne(x);
      }
      forall x | x in xs && Admissible(k, MsgExec(xs))
        ensures x.Packed? && LeafRule(k, x.msg)
      {
        assert UnpacksTo(x);
        assert x.msg in Leaves(MsgExec(xs));
      }
    }
  }

  method AcceptWrapped(xs: seq<Any>, k: Params) returns (ok: bool)
    ensures ok <==> Admissible(k, MsgExec(xs))
  {
    hide Admissible, LeafRule;
    WrapperAdmissible(k, xs);
    for i := 0 to |xs|
      invariant forall j :: 0 <= j < i ==> xs[j].Packed? && !xs[j].msg.MsgExec? && LeafRule(k, xs[j].msg)
    {
      if xs[i].Unknown? {
        assert xs[i] in xs;
        return false;
      }
      var inner := IsAcceptable(xs[i].msg, k);
      if !inner {
        assert xs[i] in xs;
        return false;
      }
    }
    return true;
  }

  /** LockAnteDecorator.AnteHandle: accepts exactly the transactions of admissible messages. */
  method AnteHandle(locked: bool, msgs: seq<Msg>, k: Params) returns (ok: bool)
    ensures ok <==> (locked ==> forall m :: m in msgs ==> Admissible(k, m))
  {
    hide LeafRule;
    if locked {
      for i := 0 to |msgs|
        invariant forall j :: 0 <= j < i ==> Admissible(k, msgs[j])
      {
        var m := msgs[i];
        assert m in msgs;
        var accepted;
        if m.MsgExec? {
          accepted := AcceptWrapped(m.msgs, k);
        } else {
          accepted := IsAcceptable(m, k);
        }
        if !accepted {
          assert !m.MsgExec? ==> m in Leaves(m);
          return false;
        }
      }
    }
    return true;
  }

  // ----- monotonicity -------------------------------------------------------

  /** More exemptions, fewer locked coins or fewer locked types admit no less. */
  lemma LeafRuleMonotone(k: Params, k': Params, m: Msg)
    requires k.exempt <= k'.exempt && k'.lockedDenoms <= k.lockedDenoms && k'.lockedTypes <= k.lockedTypes
    requires LeafRule(k, m)
    ensures LeafRule(k', m)
  {
  }

  lemma AdmissibleMonotone(k: Params, k': Params, m: Msg)
    requires k.exempt <= k'.exempt && k'.lockedDenoms <= k.lockedDenoms && k'.lockedTypes <= k.lockedTypes
    requires Admissible(k, m)
    ensures Admissible(k', m)
  {
    hide LeafRule;
    forall leaf | leaf in Leaves(m)
      ensures LeafRule(k', leaf)
    {
      LeafRuleMonotone(k, k', leaf);
    }
  }

}
