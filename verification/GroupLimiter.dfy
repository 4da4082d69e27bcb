/** The limiter for group proposals (app/ante/group_message_limiter.go). */
module GroupLimiter {

  const MAX_NESTED_MSGS: nat := 6

  /** A proposal's messages are None if they cannot be unpacked. */
  datatype Msg = SubmitProposal(msgs: Unpacked) | Exec | Leaf(typeUrl: string)
  datatype Unpacked = Broken | Msgs(msgs: seq<Msg>)

  /** How many proposals a list holds. */
  ghost function Proposals(msgs: seq<Msg>): nat
  {
    if msgs == [] then 0
    else Proposals(msgs[..|msgs| - 1]) + (if msgs[|msgs| - 1].SubmitProposal? then 1 else 0)
  }

  /** What a proposal may contain: neither a proposal nor an Exec nor a disabled type. */
  ghost predicate PlainMessages(disabled: set<string>, u: Unpacked)
  {
    u.Msgs? && forall m :: m in u.msgs ==> m.Leaf? && m.typeUrl !in disabled
  }

  ghost predicate Admissible(disabled: set<string>, msgs: seq<Msg>, inner: bool, nested: nat)
  {
    && nested < MAX_NESTED_MSGS
    && if inner then PlainMessages(disabled, Msgs(msgs))
       else
         && nested + Proposals(msgs) < MAX_NESTED_MSGS
         && forall m :: m in msgs && m.SubmitProposal? ==> PlainMessages(disabled, m.msgs)
  }

  lemma {:induction false} ProposalsGrow(msgs: seq<Msg>, n: nat)
    requires n <= |msgs|
    ensures Proposals(msgs[..n]) <= Proposals(msgs)
    decreases |msgs|
  {
    if n < |msgs| {
      assert msgs[..|msgs| - 1][..n] == msgs[..n];
      ProposalsGrow(msgs[..|msgs| - 1], n);
    } else {
      assert msgs[..n] == msgs;
    }
  }

  /** checkDisabledMsgs. */
  method CheckDisabledMsgs(disabled: set<string>, msgs: seq<Msg>, inner: bool, nested: nat) returns (ok: bool)
    ensures ok <==> Admissible(disabled, msgs, inner, nested)
    decreases msgs
  {
    if nested >= MAX_NESTED_MSGS {
      return false;
    }
    var count := nested;
    for i := 0 to |msgs|
      invariant !inner ==> count == nested + Proposals(msgs[..i]) < MAX_NESTED_MSGS
      invariant inner ==> forall j :: 0 <= j < i ==> msgs[j].Leaf? && msgs[j].typeUrl !in disabled
      invariant !inner ==> forall j :: 0 <= j < i && msgs[j].SubmitProposal? ==> PlainMessages(disabled, msgs[j].msgs)
    {
      var m := msgs[i];
      assert m in msgs;
      assert msgs[..i + 1][..i] == msgs[..i];
      match m
      case SubmitProposal(u) =>
        if inner || u.Broken? {
          return false;
        }
        count := count + 1;
        ProposalsGrow(msgs, i + 1);
        var r := CheckDisabledMsgs(disabled, u.msgs, true, count);
        if !r {
          return false;
        }
      case Exec =>
        if inner {
          return false;
        }
      case Leaf(url) =>
        if inner && url in disabled {
          return false;
        }
    }
    assert msgs[..|msgs|] == msgs;
    return true;
  }

  /** GroupLimiterDecorator.AnteHandle: at most five proposals, each of plain messages only. */
  method AnteHandle(disabled: set<string>, msgs: seq<Msg>) returns (ok: bool)
    ensures ok <==>
              && Proposals(msgs) <= 5
              && forall m :: m in msgs && m.SubmitProposal? ==> PlainMessages(disabled, m.msgs)
  {
    ok := CheckDisabledMsgs(disabled, msgs, false, 0);
  }
}
