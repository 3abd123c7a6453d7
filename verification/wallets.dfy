/**
 The wallet catalog: the fixed, ordered table of known wallets with their
 install-detection predicates (`walletsConfig`), and the list handed to the
 UI, which may end in a generic `injected` entry (`createWallets`).
 */
module Wallets {

  import opened Wrappers
  import opened Environment
  import opened Connectors

  /** An icon is an image path or the generic filled-wallet component; neither is interpreted. */
  datatype Icon = ImagePath(path: string) | FilledWalletIcon

  /**
   The shape of a deep link or download link: one URL for every platform, or
   a record holding only a `desktop` URL. The URLs themselves are not modelled.
   */
  datatype Link = AnyPlatform | DesktopOnly

  datatype WalletEntry = WalletEntry(
    id: string,
    title: string,
    icon: Icon,
    connectorId: ConnectorName,
    installed: bool,
    deepLink: Option<Link>,
    downloadLink: Option<Link>
  )

  /** Number of entries in the fixed table. */
  const TableSize: nat := 12

  /** Id of the generic entry that may follow the table. */
  const FallbackId: string := "injected"

  /** No two entries share an id. */
  predicate DistinctIds(ws: seq<WalletEntry>) {
    forall i, j :: 0 <= i < j < |ws| ==> ws[i].id != ws[j].id
  }

  /** The ids of the fixed table, in declaration order. */
  const TableIds: seq<string> := [
    "metamask", "binance", "coinbase", "trust", "walletconnect", "opera",
    "brave", "math", "tokenpocket", "safepal", "coin98", "blocto"
  ]

  /**
   The table ids are pairwise distinct and differ from the generic entry's id:
   already the length together with the first letter tells any two apart.
   */
  lemma TableIdsDistinct()
    ensures forall i, j :: 0 <= i < j < |TableIds| ==> TableIds[i] != TableIds[j]
    ensures forall i :: 0 <= i < |TableIds| ==> TableIds[i] != FallbackId
  {
    var keys := seq(|TableIds|, k requires 0 <= k < |TableIds| => (|TableIds[k]|, TableIds[k][0]));
    assert keys == [(8, 'm'), (7, 'b'), (8, 'c'), (5, 't'), (13, 'w'), (5, 'o'),
                    (5, 'b'), (4, 'm'), (11, 't'), (7, 's'), (6, 'c'), (6, 'b')];
    forall i, j | 0 <= i < j < |TableIds|
      ensures TableIds[i] != TableIds[j]
    {
      assert keys[i] != keys[j];
    }
    forall i | 0 <= i < |TableIds|
      ensures TableIds[i] != FallbackId
    {
      assert keys[i] != (8, 'i');
    }
  }

  /** The test `createWallets` hands to `config.some`. */
  predicate InstalledInjected(w: WalletEntry) {
    w.installed && w.connectorId == Injected
  }

  /**
   The fixed table in declaration order. Only `installed` reads the environment;
   `chainId` is accepted but no entry depends on it.
   */
  function WalletsConfig(chainId: int, env: Env): (table: seq<WalletEntry>)
    ensures |table| == TableSize
    ensures forall i :: 0 <= i < |table| ==> table[i].id == TableIds[i]
    ensures DistinctIds(table)
    ensures forall i :: 0 <= i < |table| ==> table[i].id != FallbackId
    ensures forall i :: 0 <= i < |table| && table[i].installed ==> HasWindow(env)
  {
    TableIdsDistinct();
    [
      WalletEntry("metamask", "Metamask", ImagePath("/images/wallets/metamask.png"), MetaMask,
        HasWindow(env) && Flag(env, IsMetaMask) && env.metaMaskReady,
        Some(AnyPlatform), Some(AnyPlatform)),
      WalletEntry("binance", "Binance Wallet", ImagePath("/images/wallets/binance.png"), BSC,
        HasWindow(env) && BinanceChainGlobal(env),
        None, Some(DesktopOnly)),
      WalletEntry("coinbase", "Coinbase Wallet", ImagePath("/images/wallets/coinbase.png"), WalletLink,
        HasWindow(env) && Flag(env, IsCoinbase),
        Some(AnyPlatform), Some(AnyPlatform)),
      // SafePal's provider also reports the Trust flag, so SafePal wins the tie
      WalletEntry("trust", "Trust Wallet", ImagePath("/images/wallets/trust.png"), Injected,
        HasWindow(env) && !Flag(env, IsSafePal) && (Flag(env, IsTrust) || Flag(env, IsTrustWallet)),
        Some(AnyPlatform), Some(DesktopOnly)),
      WalletEntry("walletconnect", "WalletConnect", ImagePath("/images/wallets/walletconnect.png"), WalletConnect,
        HasWindow(env) && Flag(env, IsWalletConnect),
        Some(AnyPlatform), Some(AnyPlatform)),
      WalletEntry("opera", "Opera Wallet", ImagePath("/images/wallets/opera.png"), Injected,
        HasWindow(env) && Flag(env, IsOpera),
        None, Some(AnyPlatform)),
      WalletEntry("brave", "Brave Wallet", ImagePath("/images/wallets/brave.png"), Injected,
        HasWindow(env) && Flag(env, IsBraveWallet),
        None, Some(AnyPlatform)),
      WalletEntry("math", "MathWallet", ImagePath("/images/wallets/mathwallet.png"), Injected,
        HasWindow(env) && Flag(env, IsMathWallet),
        Some(AnyPlatform), Some(AnyPlatform)),
      WalletEntry("tokenpocket", "TokenPocket", ImagePath("/images/wallets/tokenpocket.png"), Injected,
        HasWindow(env) && Flag(env, IsTokenPocket),
        Some(AnyPlatform), Some(AnyPlatform)),
      WalletEntry("safepal", "SafePal", ImagePath("/images/wallets/safepal.png"), Injected,
        HasWindow(env) && Flag(env, IsSafePal),
        Some(AnyPlatform), Some(AnyPlatform)),
      WalletEntry("coin98", "Coin98", ImagePath("/images/wallets/coin98.png"), Injected,
        HasWindow(env) && (Flag(env, IsCoin98) || Coin98Global(env)),
        Some(AnyPlatform), Some(AnyPlatform)),
      WalletEntry("blocto", "Blocto", ImagePath("/images/wallets/blocto.png"), Blocto,
        HasWindow(env) && Flag(env, IsBlocto),
        Some(AnyPlatform), Some(AnyPlatform))
    ]
  }

  /** The generic entry; it reports installed exactly when some provider is injected. */
  function Fallback(env: Env): (w: WalletEntry)
    ensures w.id == FallbackId && w.connectorId == Injected
    ensures w.installed <==> HasProvider(env)
  {
    WalletEntry(FallbackId, "Injected", FilledWalletIcon, Injected, HasProvider(env), None, None)
  }

  /** `config.some(c => c.installed && c.connectorId === Injected)` */
  function AnyInstalledInjected(ws: seq<WalletEntry>): (b: bool)
    ensures b <==> exists i :: 0 <= i < |ws| && InstalledInjected(ws[i])
  {
    if ws == [] then false
    else if InstalledInjected(ws[0]) then
      assert InstalledInjected(ws[0]);
      true
    else
      var rest := AnyInstalledInjected(ws[1..]);
      assert forall i :: 1 <= i < |ws| ==> ws[i] == ws[1..][i - 1];
      rest
  }

  /**
   The code's condition for leaving the fallback out: a defined `window`
   WITHOUT `window.ethereum` (the variable the source calls `hasInjected`)
   and some Injected-connector entry of the table installed.
   */
  predicate OmitsFallback(chainId: int, env: Env) {
    HasWindow(env) && !HasProvider(env) && AnyInstalledInjected(WalletsConfig(chainId, env))
  }

  /** The list shown to the user: the table, followed by the generic entry unless `OmitsFallback`. */
  function CreateWallets(chainId: int, env: Env): (r: seq<WalletEntry>)
    ensures |r| == TableSize || |r| == TableSize + 1
    ensures r[..TableSize] == WalletsConfig(chainId, env)
    ensures |r| == TableSize <==> OmitsFallback(chainId, env)
    ensures |r| == TableSize + 1 ==> r[TableSize].id == FallbackId && r[TableSize].connectorId == Injected
    ensures DistinctIds(r)
  {
    var config := WalletsConfig(chainId, env);
    var hasInjected := HasWindow(env) && !HasProvider(env);
    if hasInjected && AnyInstalledInjected(config) then config
    else
      var r := config + [Fallback(env)];
      assert r[TableSize] == Fallback(env);
      assert forall i :: 0 <= i < TableSize ==> r[i] == config[i];
      r
  }
}
