/** Registration and toggling (x/erc20/keeper/proposals.go), each as one atomic step. */
module Proposals {
  import opened GoInts
  import opened TokenPairs
  import opened Hex
  import opened PairRegistry
  import opened Ledger
  import opened Bridge

  /** "erc20/" */
  const ERC20_PREFIX: seq<byte> := [101, 114, 99, 50, 48, 47]

  /** "CANTO" */
  const EVM_DENOM: seq<byte> := [67, 65, 78, 84, 79]

  function CreateDenom(text: GoString): Denom
  {
    ERC20_PREFIX + text
  }

  predicate IsErc20Denom(d: Denom)
  {
    ERC20_PREFIX <= d
  }

  predicate Contains(s: GoString, part: GoString)
  {
    exists i :: 0 <= i <= |s| && part <= s[i..]
  }

  /**
   RegisterCoin.  The name, not the base denomination, is looked up among the
   registered denominations.  `text` is the deployed contract's address in print.
   */
  function RegisterCoin(st: State, md: Metadata, text: GoString): Outcome
  {
    var c := HexToAddress(text);
    if !st.params.enableErc20 then Failed
    else if Contains(md.base, EVM_DENOM) then Failed
    else if md.name in st.registry.byDenom then Failed
    else if Supply(st.bank, md.base) == 0 then Failed
    else if md.base in st.metadata && st.metadata[md.base] != md then Failed
    else if c in st.tokens then Failed
    else Done(st.(metadata := st.metadata[md.base := md],
                  tokens := st.tokens[c := multiset{}],
                  registry := Register(st.registry, TokenPair(text, md.base, true, OWNER_MODULE))))
  }

  /**
   RegisterERC20.  `text` is the contract's address in print; `details` are the
   remaining metadata drawn from the contract, None if they are not valid.
   */
  function RegisterERC20(st: State, text: GoString, details: Option<GoString>): Outcome
  {
    var c, d := HexToAddress(text), CreateDenom(text);
    if !st.params.enableErc20 then Failed
    else if c in st.registry.byErc20 then Failed
    else if c !in st.tokens then Failed
    else if d in st.metadata then Failed
    else if d in st.registry.byDenom then Failed
    else if details.None? then Failed
    else Done(st.(metadata := st.metadata[d := Metadata(d, d, details.value)],
                  registry := Register(st.registry, TokenPair(text, d, true, OWNER_EXTERNAL))))
  }

  function ToggleConversion(st: State, token: GoString): Outcome
  {
    match Toggle(st.registry, token)
    case None => Failed
    case Some(r) => Done(st.(registry := r))
  }
}
