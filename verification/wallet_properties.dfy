/**
 Properties of the wallet catalog: the guards every detection predicate
 shares, the tie-break rules between vendor flags, when the generic entry is
 appended, and how the code's append rule relates to the rule its comment
 describes.
 */
module WalletProperties {

  import opened Wrappers
  import opened Environment
  import opened Wallets

  /** Some entry of `ws` with this id reports installed. */
  predicate IsInstalled(ws: seq<WalletEntry>, id: string) {
    exists i :: 0 <= i < |ws| && ws[i].id == id && ws[i].installed
  }

  /** With `window` undefined nothing is installed and the generic entry is appended last. */
  lemma NoWindowNothingInstalled(chainId: int, env: Env)
    requires !HasWindow(env)
    ensures |CreateWallets(chainId, env)| == TableSize + 1
    ensures CreateWallets(chainId, env)[TableSize] == Fallback(env)
    ensures forall i :: 0 <= i < |CreateWallets(chainId, env)| ==> !CreateWallets(chainId, env)[i].installed
  {
  }

  /** MetaMask needs both its provider flag and a ready connector. */
  lemma MetaMaskNeedsReadyConnector(chainId: int, env: Env)
    ensures !env.metaMaskReady ==> !IsInstalled(CreateWallets(chainId, env), "metamask")
    ensures IsInstalled(CreateWallets(chainId, env), "metamask") <==> Flag(env, IsMetaMask) && env.metaMaskReady
  {
    var r := CreateWallets(chainId, env);
    assert r[0].id == "metamask";
  }

  /**
   SafePal's provider also reports the Trust flag, so a SafePal flag
   suppresses Trust Wallet whatever its own flags say.
   */
  lemma TrustYieldsToSafePal(chainId: int, env: Env)
    ensures Flag(env, IsSafePal) ==> !IsInstalled(CreateWallets(chainId, env), "trust")
    ensures IsInstalled(CreateWallets(chainId, env), "trust")
        <==> !Flag(env, IsSafePal) && (Flag(env, IsTrust) || Flag(env, IsTrustWallet))
  {
    var r := CreateWallets(chainId, env);
    assert r[3].id == "trust";
  }

  /** SafePal is detected exactly by its flag, so Trust Wallet and SafePal are never both installed. */
  lemma SafePalExcludesTrust(chainId: int, env: Env)
    ensures IsInstalled(CreateWallets(chainId, env), "safepal") <==> Flag(env, IsSafePal)
    ensures !(IsInstalled(CreateWallets(chainId, env), "trust") && IsInstalled(CreateWallets(chainId, env), "safepal"))
  {
    var r := CreateWallets(chainId, env);
    assert r[9].id == "safepal";
    TrustYieldsToSafePal(chainId, env);
  }

  /**
   Without `window.ethereum` only the two wallets detected through their own
   globals can be installed, and of the Injected-connector entries only Coin98.
   */
  lemma OnlyGlobalsWithoutProvider(chainId: int, env: Env)
    requires !HasProvider(env)
    ensures forall i :: 0 <= i < TableSize && WalletsConfig(chainId, env)[i].installed ==>
      WalletsConfig(chainId, env)[i].id == "binance" || WalletsConfig(chainId, env)[i].id == "coin98"
    ensures forall i :: 0 <= i < TableSize && InstalledInjected(WalletsConfig(chainId, env)[i]) ==>
      WalletsConfig(chainId, env)[i].id == "coin98"
  {
  }

  /** Without `window.ethereum`, Binance and Coin98 are detected exactly by their globals. */
  lemma GlobalsDetectWithoutProvider(chainId: int, env: Env)
    requires !HasProvider(env)
    ensures IsInstalled(CreateWallets(chainId, env), "coin98") <==> Coin98Global(env)
    ensures IsInstalled(CreateWallets(chainId, env), "binance") <==> BinanceChainGlobal(env)
  {
    var r := CreateWallets(chainId, env);
    assert r[1].id == "binance";
    assert r[10].id == "coin98";
  }

  /**
   The code leaves the generic entry out exactly when `window` is defined,
   `window.ethereum` is absent and the `window.coin98` global is present.
   */
  lemma FallbackOmittedIff(chainId: int, env: Env)
    ensures |CreateWallets(chainId, env)| == TableSize
        <==> HasWindow(env) && !HasProvider(env) && Coin98Global(env)
  {
    var config := WalletsConfig(chainId, env);
    if HasWindow(env) && !HasProvider(env) {
      assert config[10].id == "coin98";
      if Coin98Global(env) {
        assert InstalledInjected(config[10]);
      } else {
        forall i | 0 <= i < |config|
          ensures !InstalledInjected(config[i])
        {
        }
      }
    }
  }

  /** With a provider injected the generic entry is always appended, and reports installed. */
  lemma ProviderAlwaysGetsFallback(chainId: int, env: Env)
    requires HasProvider(env)
    ensures |CreateWallets(chainId, env)| == TableSize + 1
    ensures CreateWallets(chainId, env)[TableSize].installed
  {
  }

  /** The list is the table, optionally followed by the generic entry, which can only come last. */
  lemma TableIsPrefix(chainId: int, env: Env)
    ensures CreateWallets(chainId, env) == WalletsConfig(chainId, env)
         || CreateWallets(chainId, env) == WalletsConfig(chainId, env) + [Fallback(env)]
    ensures forall i :: 0 <= i < |CreateWallets(chainId, env)| && CreateWallets(chainId, env)[i].id == FallbackId ==>
      i == TableSize
  {
  }

  /** The chain id plays no part in the list. */
  lemma IgnoresChainId(chainId1: int, chainId2: int, env: Env)
    ensures CreateWallets(chainId1, env) == CreateWallets(chainId2, env)
  {
  }

  /**
   Two environments yield lists that agree on everything except `installed`
   (and, through the fallback rule, on whether the generic entry is there).
   */
  lemma OnlyInstalledTracksEnvironment(chainId: int, env1: Env, env2: Env)
    ensures forall i :: 0 <= i < TableSize ==>
      WalletsConfig(chainId, env1)[i].(installed := false) == WalletsConfig(chainId, env2)[i].(installed := false)
    ensures Fallback(env1).(installed := false) == Fallback(env2).(installed := false)
  {
    var t1, t2 := WalletsConfig(chainId, env1), WalletsConfig(chainId, env2);
    forall i | 0 <= i < TableSize
      ensures t1[i].(installed := false) == t2[i].(installed := false)
    {
      assert t1[i].id == t2[i].id;
    }
  }

  /**
   The rule the source's comment describes: append the generic entry when no
   Injected-connector entry of the table is installed.
   */
  predicate CommentAppendsFallback(chainId: int, env: Env) {
    !AnyInstalledInjected(WalletsConfig(chainId, env))
  }

  /** Wherever the code leaves the generic entry out, the comment's rule leaves it out too. */
  lemma CodeOmitsOnlyWhereCommentOmits(chainId: int, env: Env)
    ensures |CreateWallets(chainId, env)| == TableSize ==> !CommentAppendsFallback(chainId, env)
  {
  }

  /**
   The converse fails: whenever a provider is injected and some
   Injected-connector entry detects it, the comment's rule leaves the generic
   entry out but the code appends it.
   */
  lemma CommentRuleDiffers(chainId: int, env: Env)
    requires HasProvider(env) && AnyInstalledInjected(WalletsConfig(chainId, env))
    ensures !CommentAppendsFallback(chainId, env)
    ensures |CreateWallets(chainId, env)| == TableSize + 1
  {
  }

  /** Such environments exist: an Opera provider is one. */
  lemma CommentRuleDiffersOnOpera(chainId: int)
    ensures var env := Env(Some(Window(Some({IsOpera}), false, false)), false);
      !CommentAppendsFallback(chainId, env) && |CreateWallets(chainId, env)| == TableSize + 1
  {
    var env := Env(Some(Window(Some({IsOpera}), false, false)), false);
    assert InstalledInjected(WalletsConfig(chainId, env)[5]);
  }
}
