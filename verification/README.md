# Wallet catalog and documentation locator

A Dafny model of the wallet configuration of the PancakeSwap web app
(`apps/web/src/config/wallet.ts`). The file does three things:

- `ConnectorNames` names the connection methods a wallet entry can hand off to.
- `walletsConfig` is a fixed table of 12 known wallets, in declaration order.
  Each entry has a detection predicate `installed` that reads the browser
  environment. `createWallets` returns that table and may append a generic
  `injected` entry.
- `getDocLink` maps a locale code to a localized wallet guide URL. Any code
  it does not know gets the default guide.

The browser globals become one immutable value, `Environment.Env`. It holds
whether `window` exists; whether `window.ethereum` exists and which vendor
flags it reports; the `window.BinanceChain` and `window.coin98` globals; and
the `metaMaskConnector.ready` bit. Every truthiness test (`Boolean(x)`, `!x`)
becomes a boolean, and each detection predicate is a pure function of `Env`.

Modules: `Wrappers` (Option), `Environment`, `Connectors`, `Wallets` (the table
and list assembly), `WalletProperties` (lemmas about the catalog) and
`DocLinks`.

The fallback rule is modelled as the code is written, which differs from what
its comment says. The code leaves out the generic entry
only when three things hold: `window` is defined, `window.ethereum` is absent
(the source calls this `hasInjected`), and some Injected-connector entry is
installed. Without `window.ethereum`, the only Injected-connector entry that
can be installed is Coin98, through the `window.coin98` global. So the entry is
left out exactly when `window` is defined, `window.ethereum` is absent and
`window.coin98` is set (`FallbackOmittedIff`).

The comment says the generic entry is added "if none of injected type wallets
installed". That rule leaves the entry out in strictly more environments:
`CodeOmitsOnlyWhereCommentOmits` proves the inclusion. `CommentRuleDiffers`
shows the two rules disagree whenever a provider is injected and a named
Injected-connector wallet detects it; an Opera provider is one such case.

With `window.ethereum` present, `hasInjected` is false and the entry is always
appended (`ProviderAlwaysGetsFallback`), whatever the table detects.

## Model

| member | source | states |
|---|---|---|
| Connectors.Tag | apps/web/src/config/wallet.ts:7-14 | each connector's string value is non-empty and reads back as that connector |
| Connectors.TagInjective | apps/web/src/config/wallet.ts:7-14 | distinct connectors carry distinct strings, so comparing connectors agrees with comparing their string values (line 167) |
| Wallets.WalletsConfig | apps/web/src/config/wallet.ts:28-162 | the table has 12 entries whose ids are the declared ones in declaration order, pairwise distinct and none of them `injected`, and no entry is installed unless `window` is defined |
| Wallets.TableIdsDistinct | apps/web/src/config/wallet.ts:38-152 | the 12 declared ids are pairwise distinct and none of them is `injected` |
| Wallets.Fallback | apps/web/src/config/wallet.ts:171-177 | the generic entry has id `injected`, uses the Injected connector, and reports installed exactly when `window.ethereum` is present |
| Wallets.AnyInstalledInjected | apps/web/src/config/wallet.ts:167 | the scan is true iff some entry of the list is installed and uses the Injected connector |
| Wallets.CreateWallets | apps/web/src/config/wallet.ts:164-179 | the result has 12 or 13 entries; the table is its unchanged prefix; it has 12 exactly when the code's omission condition holds; a 13th entry is the `injected` one; all ids are distinct |
| WalletProperties.NoWindowNothingInstalled | apps/web/src/config/wallet.ts:41-176 | with `window` undefined no entry is installed, and the generic entry is appended last |
| WalletProperties.MetaMaskNeedsReadyConnector | apps/web/src/config/wallet.ts:41 | MetaMask is installed iff its provider flag is set and the connector is ready, so a set flag with a connector that is not ready gives not installed |
| WalletProperties.TrustYieldsToSafePal | apps/web/src/config/wallet.ts:74-77 | the SafePal flag suppresses Trust Wallet whatever its own flags say; otherwise Trust is installed iff `isTrust` or `isTrustWallet` is set |
| WalletProperties.SafePalExcludesTrust | apps/web/src/config/wallet.ts:69-138 | SafePal is installed iff its flag is set, and Trust Wallet and SafePal are never both installed |
| WalletProperties.OnlyGlobalsWithoutProvider | apps/web/src/config/wallet.ts:36-161 | without `window.ethereum` only Binance and Coin98 can be installed, and Coin98 is the only Injected-connector entry that can (Binance uses the BSC connector) |
| WalletProperties.GlobalsDetectWithoutProvider | apps/web/src/config/wallet.ts:47-150 | without `window.ethereum`, Binance is installed iff `window.BinanceChain` is set and Coin98 iff `window.coin98` is set |
| WalletProperties.FallbackOmittedIff | apps/web/src/config/wallet.ts:164-178 | the generic entry is left out iff `window` is defined, `window.ethereum` is absent and the `window.coin98` global is set |
| WalletProperties.ProviderAlwaysGetsFallback | apps/web/src/config/wallet.ts:165-176 | with `window.ethereum` present the generic entry is always appended and reports installed |
| WalletProperties.TableIsPrefix | apps/web/src/config/wallet.ts:166-178 | the list is the table, or the table followed by the generic entry, and an `injected` id appears only in the last position |
| WalletProperties.IgnoresChainId | apps/web/src/config/wallet.ts:28-36 | the list does not depend on the chain id |
| WalletProperties.OnlyInstalledTracksEnvironment | apps/web/src/config/wallet.ts:36-161 | two environments give tables that agree on every field except `installed`, so the environment is re-read on every call and decides nothing else |
| WalletProperties.CodeOmitsOnlyWhereCommentOmits | apps/web/src/config/wallet.ts:167-168 | wherever the code leaves the generic entry out, the rule in the comment leaves it out too |
| WalletProperties.CommentRuleDiffers | apps/web/src/config/wallet.ts:165-178 | whenever a provider is injected and some Injected-connector entry is installed, the comment's rule leaves the generic entry out but the code appends it |
| WalletProperties.CommentRuleDiffersOnOpera | apps/web/src/config/wallet.ts:93-100 | an environment with only an Opera provider is one where the two rules disagree |
| DocLinks.LocalizedLink | apps/web/src/config/wallet.ts:194 | a localized link starts with the docs site and `v/` and ends in `/get-started/wallet-guide` |
| DocLinks.DocLink | apps/web/src/config/wallet.ts:192-195 | the link always starts with the docs site and ends in `/get-started/wallet-guide`; an unmapped code gets the default guide |
| DocLinks.MappedSegmentsNonEmpty | apps/web/src/config/wallet.ts:181-193 | every mapped segment is non-empty, so the truthiness test on the lookup agrees with membership |
| DocLinks.MappedSegmentsDistinct | apps/web/src/config/wallet.ts:181-190 | the 8 codes map to 8 different segments |
| DocLinks.LocalizedLinkRoundTrip | apps/web/src/config/wallet.ts:194 | the language segment can be read back out of a localized link |
| DocLinks.DefaultLinkHasNoLanguage | apps/web/src/config/wallet.ts:195 | the default guide link has no language segment |
| DocLinks.DocLinkRoundTrip | apps/web/src/config/wallet.ts:181-195 | the link for a mapped code carries exactly that code's segment; the link for any other code carries none |
| DocLinks.DocLinkDistinguishesCodes | apps/web/src/config/wallet.ts:181-195 | distinct mapped codes give distinct links, and none of them is the default |
| DocLinks.DocLinkExamples | apps/web/src/config/wallet.ts:184-195 | `fr` gives the `french` guide; `xx` gives the default guide |

## Left out

- `createQrCode` and `delay` (lines 16-26) are left out. They fire the connect callback, wait on a timer, and then read the URI from the external WalletConnect provider. No sequential contract covers that, and the closure `walletsConfig` builds from them at line 35 is never placed in any entry.
- The `connect` callback is left out. The table never calls it, so the model takes only the chain id, which it also ignores.
- Deep links and download links keep only their shape: one URL, or a `{ desktop }` record, or none. The URLs themselves are not modelled. Every one of them in the source points at `https://a.bnaniance.xyz`, a lookalike of a well-known exchange's name, not at each vendor's own site. Do not read the model as certifying them.
- The `isFirefox` user-agent test (line 54) is dropped. Both branches give the same link.
- Icons are uninterpreted values: an image path, or the generic filled-wallet component.
- `docLangCodeMapping[code]` on a plain object would also find inherited keys such as `toString`. The model looks up only the 8 own entries.
- Vendor flags that hold non-boolean values are reduced to their truthiness. JavaScript does the same when it tests them.
- The `WalletConfigV2` type and the wagmi connector internals are not modelled. They belong to external libraries. Only `metaMaskConnector.ready` is read, and it is an input bit.
- The source reads `window` at line 165 and again in every predicate (lines 41-176). A single `Env` snapshot assumes nothing changes between those reads.
