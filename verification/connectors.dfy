/**
 The closed set of connection methods a wallet entry hands off to
 (the `ConnectorNames` string enum).
 */
module Connectors {

  import opened Wrappers

  datatype ConnectorName = MetaMask | Injected | WalletConnect | BSC | Blocto | WalletLink

  /** The string value each enum member carries. */
  function Tag(c: ConnectorName): (s: string)
    ensures |s| > 0
    ensures FromTag(s) == Some(c)
  {
    match c
    case MetaMask => "metaMask"
    case Injected => "injected"
    case WalletConnect => "walletConnect"
    case BSC => "bsc"
    case Blocto => "blocto"
    case WalletLink => "coinbaseWallet"
  }

  /** Reads an enum member back from its string value. */
  function FromTag(s: string): (c: Option<ConnectorName>)
  {
    if s == "metaMask" then Some(MetaMask)
    else if s == "injected" then Some(Injected)
    else if s == "walletConnect" then Some(WalletConnect)
    else if s == "bsc" then Some(BSC)
    else if s == "blocto" then Some(Blocto)
    else if s == "coinbaseWallet" then Some(WalletLink)
    else None
  }

  /** Distinct members carry distinct strings, so the tag identifies the connector. */
  lemma TagInjective(a: ConnectorName, b: ConnectorName)
    ensures Tag(a) == Tag(b) ==> a == b
  {
  }
}
