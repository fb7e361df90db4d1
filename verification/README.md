# Unverified asset warning panel — decision logic

This project models the decision logic of the wallet's `AssetWarning` panel in
Dafny. The panel opens for a token contract that is not on a curated asset list.
It shows the token's contract address and, when the asset was discovered
on-chain, its discovery transaction hash. It also offers buttons that either
mark the asset verified or dismiss the panel.

The logic is separated from the markup and written as pure functions over
immutable datatypes:

- `wrappers.dfy` (`Wrappers`): `Option` for `T | undefined` values, and `Prop`
  for object properties. A `Prop` is absent, present with the value
  `undefined`, or present with a value. Object spread tells the first two apart.
- `metadata.dfy` (`AssetMetadata`): asset metadata as a typed record. It has the
  `verified` and `discoveryTxHash` fields and a map for every other field.
  `JsMetadata` is the subset of records in which no property name occurs twice,
  that is, the records that stand for a JavaScript object.
  `Spread` is the shallow merge `{ ...asset.metadata, ...newMetadata }`.
  `ToObject` gives the plain-object view, and on that view `Spread` is proved to
  be map union with the update winning.
- `activities.dfy` (`Activities`): the loaded activity list and
  `activities.find(({ hash }) => hash === h)`. The search is proved against an
  independent "first activity with this hash" definition.
- `asset_warning.dfy` (`AssetWarning`): the panel itself. This covers the
  contract-address default, `asset.metadata?.discoveryTxHash`, the correlated
  `activityItem`, the discovery row and its click handler, `copyTxHash`,
  `handleUpdateAssetMetadata`, the offered buttons and their effects, the
  block-explorer link and the banner texts. Effects are store writes,
  snackbars, clipboard writes, opening a tab, opening activity details and
  closing; a handler returns its effects in the order it performs them.
- `scenarios.dfy` (`PanelProperties`): properties that connect the parts, plus
  worked examples.

Two values come from code outside this model, and both are plain boolean
parameters:

- The feature flag `SUPPORT_UNVERIFIED_ASSET` (`isEnabled`).
- The result of `isUnverifiedAssetByUser(asset)`.

The block explorer URL from `getBlockExplorerURL` is an optional string
parameter.

Some consequences of the code that the model makes explicit:

- **No verification display mode.** The code computes no verified/unverified
  mode from `metadata.verified`. It takes `isUnverified` from
  `isUnverifiedAssetByUser`. The banner title depends only on that value, and
  the banner description depends only on the flag. So with the feature off,
  the title still tells verified from unverified (`BannerIndependence`).
- **One correlation result.** `activityItem` is `undefined` both when there is
  no discovery hash and when no loaded activity matches it. The row is hidden
  in the first case, so its click handler only ever meets the second.
- **Empty hash.** The code tests the hash for truthiness, so an empty
  `discoveryTxHash` counts as no hash. Nothing is correlated with it, even if
  an activity has an empty hash, and the row is hidden.
- **No failure path.** `handleUpdateAssetMetadata` awaits the store dispatch
  and handles no error, so the snackbar and close always follow the write in
  the model.

## Model

| member | source | states |
|---|---|---|
| AssetMetadata.Spread | ui/components/Wallet/UnverifiedAsset/AssetWarning.tsx:57 | each typed field comes from the update when the update has that property (even one set to `undefined`) and from the base otherwise; the other keys are the union of both sides, and the update's value wins; a record that stands for a JavaScript object stays one |
| AssetMetadata.SpreadIsObjectSpread | ui/components/Wallet/UnverifiedAsset/AssetWarning.tsx:57 | on the plain-object view, the typed merge is exactly JavaScript object spread: map union with the right side winning |
| AssetMetadata.MergeInto | ui/components/Wallet/UnverifiedAsset/AssetWarning.tsx:57 | `{ ...current, ...update }` with a possibly `undefined` current: as a plain object, the result is the current metadata (or `{}`) with the update's properties laid over it |
| AssetMetadata.MergeTakesUpdateThenCurrent | ui/components/Wallet/UnverifiedAsset/AssetWarning.tsx:57 | each property of the merged metadata is the update's when the update has it and the current metadata's otherwise; it is absent when neither side has it, and absent current metadata contributes nothing |
| AssetMetadata.MergeIntoAbsent | ui/components/Wallet/UnverifiedAsset/AssetWarning.tsx:57 | merging into `undefined` metadata yields the update itself |
| AssetMetadata.MergeIdempotent | ui/components/Wallet/UnverifiedAsset/AssetWarning.tsx:57 | merging the same update twice equals merging it once |
| AssetMetadata.MarkVerifiedPreservesProvenance | ui/components/Wallet/UnverifiedAsset/AssetWarning.tsx:57 | merging `{ verified: true }` sets `verified` to true; the discovery hash and every other field are left exactly as they were |
| Activities.FirstIndexWithHash | ui/components/Wallet/UnverifiedAsset/AssetWarning.tsx:72 | the index found holds an activity with the hash, and no earlier activity has it; nothing is found exactly when no activity has the hash |
| Activities.FindByHash | ui/components/Wallet/UnverifiedAsset/AssetWarning.tsx:72 | `find` returns a member of the list with the searched hash, and returns `undefined` exactly when no activity has that hash |
| Activities.FindByHashIsFirstMatch | ui/components/Wallet/UnverifiedAsset/AssetWarning.tsx:72 | `find` returns an activity if and only if it is the first in list order with the hash: with repeated hashes, the first match wins |
| Activities.FindByHashOverConcatenation | ui/components/Wallet/UnverifiedAsset/AssetWarning.tsx:68-73 | searching a list extended at the end keeps any match found in the original part; only when that part has no match does the extension decide |
| AssetWarning.ContractAddress | ui/components/Wallet/UnverifiedAsset/AssetWarning.tsx:47-50 | the address is non-empty if and only if the asset has a non-empty `contractAddress`, and in that case it is that address; otherwise it is `""` |
| AssetWarning.DiscoveryTxHash | ui/components/Wallet/UnverifiedAsset/AssetWarning.tsx:52 | a hash is read exactly when metadata exists and holds a string `discoveryTxHash`, and it is that string |
| AssetWarning.ActivityItem | ui/components/Wallet/UnverifiedAsset/AssetWarning.tsx:71-73 | a missing or empty hash correlates with nothing; otherwise the result is the first loaded activity whose hash equals the discovery hash, and nothing exactly when no loaded activity has that hash |
| AssetWarning.CopyTxHash | ui/components/Wallet/UnverifiedAsset/AssetWarning.tsx:63-66 | exactly two effects: first the clipboard receives exactly the given hash, then the copy snackbar is raised; nothing is opened, written to the store or closed |
| AssetWarning.DiscoveryClick | ui/components/Wallet/UnverifiedAsset/AssetWarning.tsx:142-148 | with a correlated activity, the click has exactly one effect, opening that activity; without one, it has exactly two, copying exactly the hash and then raising the copy snackbar; it never writes metadata or closes |
| AssetWarning.DiscoveryRow | ui/components/Wallet/UnverifiedAsset/AssetWarning.tsx:132-156 | the discovery row exists exactly when the discovery hash is truthy |
| AssetWarning.HandleUpdateAssetMetadata | ui/components/Wallet/UnverifiedAsset/AssetWarning.tsx:56-61 | the effects are exactly a store write of the merged metadata for this asset, then the "asset updated" snackbar, then close; the written metadata, as a plain object, is the current metadata spread with the update; it is the update itself when there was no metadata |
| AssetWarning.VerifyAsset | ui/components/Wallet/UnverifiedAsset/AssetWarning.tsx:171-173 | "add to asset list" writes metadata with `verified` true and the current discovery hash and other fields unchanged, then raises the snackbar, then closes |
| AssetWarning.OfferedActions | ui/components/Wallet/UnverifiedAsset/AssetWarning.tsx:161-183 | with the feature on, "don't show" is offered first, "add to asset list" is offered if and only if the asset is unverified, and there is no close button; with the feature off, only "close" is offered; no button appears twice |
| AssetWarning.Perform | ui/components/Wallet/UnverifiedAsset/AssetWarning.tsx:161-183 | "don't show" has no effect, "close" only closes, and only "add to asset list" writes metadata: its effects are exactly the store write of the current metadata marked verified for this asset, then the "asset updated" snackbar, then close |
| AssetWarning.ContractLinkClick | ui/components/Wallet/UnverifiedAsset/AssetWarning.tsx:103-116 | the contract button does nothing if and only if the explorer URL is missing or empty; otherwise it opens one tab on the explorer's token page for the contract address shown |
| AssetWarning.TokenUrlRoundTrip | ui/components/Wallet/UnverifiedAsset/AssetWarning.tsx:112 | the contract address can be read back from the token page URL built for it |
| AssetWarning.Banner | ui/components/Wallet/UnverifiedAsset/AssetWarning.tsx:79-90 | the banner shows the "unverified" title exactly when the asset is unverified, and the current description exactly when the feature is on |
| AssetWarning.BannerIndependence | ui/components/Wallet/UnverifiedAsset/AssetWarning.tsx:79-90 | the banner title depends only on the unverified state and the description only on the feature flag, each in both directions |
| PanelProperties.ClickOpensFirstMatch | ui/components/Wallet/UnverifiedAsset/AssetWarning.tsx:142-145 | when a loaded activity carries the discovery hash, clicking the row opens one activity, namely the first one with that hash, and copies nothing |
| PanelProperties.ClickCopiesWhenUnmatched | ui/components/Wallet/UnverifiedAsset/AssetWarning.tsx:142-148 | when no loaded activity carries the discovery hash, clicking copies exactly that hash, raises the copy snackbar, and opens nothing |
| PanelProperties.MissingOrEmptyHashCorrelatesNothing | ui/components/Wallet/UnverifiedAsset/AssetWarning.tsx:71-73 | an undefined or empty discovery hash correlates with no activity and hides the row |
| PanelProperties.CorrelationStableUnderAppend | ui/components/Wallet/UnverifiedAsset/AssetWarning.tsx:68-73 | once the loaded window contains a match, activities appended after the window do not change the correlated activity |
| PanelProperties.LegacyPanelOnlyCloses | ui/components/Wallet/UnverifiedAsset/AssetWarning.tsx:179-183 | with the feature off, every offered button just closes and never writes metadata |
| PanelProperties.DontShowOfferedAndInert | ui/components/Wallet/UnverifiedAsset/AssetWarning.tsx:163-166 | with the feature on, "don't show" is always offered and has no effect |
| PanelProperties.MetadataWrittenIffFeatureOnAndUnverified | ui/components/Wallet/UnverifiedAsset/AssetWarning.tsx:161-177 | some offered button writes metadata if and only if the feature is on and the asset is unverified, and the write is the current metadata marked verified |
| PanelProperties.VerifyTwiceWritesSameMetadata | ui/components/Wallet/UnverifiedAsset/AssetWarning.tsx:56-61 | verifying an asset whose metadata already holds a verification's write produces the same write again |
| PanelProperties.ExampleDiscoveryScenarios | ui/components/Wallet/UnverifiedAsset/AssetWarning.tsx:142-148 | for hash "0xDEAD", the row opens the loaded activity with that hash; with no such activity, it copies "0xDEAD" and raises the copy snackbar |
| PanelProperties.ExampleMarkVerified | ui/components/Wallet/UnverifiedAsset/AssetWarning.tsx:57 | `{ discoveryTxHash: "0xA" }` marked verified becomes `{ discoveryTxHash: "0xA", verified: true }`, and absent metadata becomes `{ verified: true }` |

## Left out

- Rendering, styles and translations: the JSX, the `<style jsx>` blocks, `useTranslation` and the translated texts are presentation only. Snackbars and banner texts are identified by their translation key.
- Store wiring: `useBackgroundDispatch`, `useBackgroundSelector` and the selectors. The selected values (current network's explorer URL, current account's activities) are parameters.
- Asynchrony and failure of the metadata write: the handler awaits the dispatch and has no error path. The model assumes the write completes, so the snackbar and close always follow it.
- `isUnverifiedAssetByUser`, `isEnabled` and `getBlockExplorerURL` are not part of this model. Their results are parameters.
- `truncateAddress` is not part of this model. It only shapes displayed text, and the displayed symbol and truncated addresses are not modelled.
- The `.focus()` call on the opened window, and the `no_click` class on the discovery button: both are presentation. The discovery button is not `disabled`, so its click handler runs whatever the explorer URL is.
- The "don't show" button is a stub in the code and is modelled as having no effect. No hide flag is invented.
- The `asset &&` guard in the contract-address default: the component's props type requires an asset object, and the model's `Asset` always is one.
- Metadata values of the wrong type under `verified` or `discoveryTxHash` cannot be represented: the typed record follows the TypeScript field types.
