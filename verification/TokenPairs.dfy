/** The registry's value type (x/erc20/types/erc20.pb.go, x/erc20/types/token_pair.go). */
module TokenPairs {
  import opened GoInts

  type GoString = seq<byte>

  const OWNER_UNSPECIFIED: int32 := 0
  const OWNER_MODULE: int32 := 1
  const OWNER_EXTERNAL: int32 := 2

  datatype TokenPair = TokenPair(erc20Address: GoString, denom: GoString, enabled: bool, contractOwner: int32)

  const EMPTY_PAIR: TokenPair := TokenPair([], [], false, OWNER_UNSPECIFIED)
}
