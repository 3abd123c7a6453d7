/**
 A snapshot of the browser environment that wallet detection reads.

 The source inspects ambient globals (`window`, `window.ethereum`,
 `window.BinanceChain`, `window.coin98`) and the readiness bit of the
 MetaMask connector. Here they are one immutable value passed explicitly,
 so every detection predicate is a pure function of it. Every JavaScript
 truthiness test (`Boolean(x)`, `!x`) becomes a plain boolean.
 */
module Environment {

  import opened Wrappers

  /** The vendor self-identification flags an injected provider may carry. */
  datatype ProviderFlag =
    | IsMetaMask
    | IsCoinbase
    | IsTrust
    | IsTrustWallet
    | IsSafePal
    | IsWalletConnect
    | IsOpera
    | IsBraveWallet
    | IsMathWallet
    | IsTokenPocket
    | IsCoin98
    | IsBlocto

  /** An injected provider (`window.ethereum`), described by the flags it reports as truthy. */
  type Provider = set<ProviderFlag>

  /** The globals of a defined `window`: `ethereum` may be absent, the other two are truthiness. */
  datatype Window = Window(ethereum: Option<Provider>, binanceChain: bool, coin98: bool)

  /** `window` may be undefined (server side rendering); `metaMaskReady` is `metaMaskConnector.ready`. */
  datatype Env = Env(window: Option<Window>, metaMaskReady: bool)

  /** `typeof window !== 'undefined'` */
  predicate HasWindow(env: Env) {
    env.window.Some?
  }

  /** `typeof window !== 'undefined' && Boolean(window.ethereum)` */
  predicate HasProvider(env: Env) {
    env.window.Some? && env.window.value.ethereum.Some?
  }

  /** `typeof window !== 'undefined' && Boolean(window.ethereum?.<flag>)` */
  predicate Flag(env: Env, f: ProviderFlag) {
    HasProvider(env) && f in env.window.value.ethereum.value
  }

  /** `typeof window !== 'undefined' && Boolean(window.BinanceChain)` */
  predicate BinanceChainGlobal(env: Env) {
    env.window.Some? && env.window.value.binanceChain
  }

  /** `typeof window !== 'undefined' && Boolean(window.coin98)` */
  predicate Coin98Global(env: Env) {
    env.window.Some? && env.window.value.coin98
  }
}
