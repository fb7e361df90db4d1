/** The decision logic of the unverified-asset warning panel, lifted out of its
    markup: the contract address it shows, the discovery transaction row and
    what clicking it does, the buttons it offers and the effects each one has.

    The feature flag `SUPPORT_UNVERIFIED_ASSET` and the result of
    `isUnverifiedAssetByUser(asset)` are plain boolean parameters. Every
    interaction with the outside world (store dispatch, clipboard, new tab,
    closing the panel, opening activity details) is an `Effect` token; a
    handler is a function returning its tokens in the order it performs them. */
module AssetWarning {
  import opened Wrappers
  import opened AssetMetadata
  import opened Activities

  /** `SmartContractFungibleAsset`, as far as the panel reads it. */
  datatype Asset = Asset(
    symbol: string,
    contractAddress: Prop<string>,
    metadata: Option<JsMetadata>)

  /** The two transient messages the panel raises, by translation key. */
  datatype Snackbar =
    | AssetUpdatedSnackbar   // wallet.verifiedAssets.snackbar
    | CopyTextSnackbar       // shared.copyTextSnackbar

  /** An observable effect of a handler. */
  datatype Effect =
    | UpdateAssetMetadata(asset: Asset, metadata: JsMetadata) // dispatch(updateAssetMetadata({ asset, metadata }))
    | ShowSnackbar(message: Snackbar)                         // dispatch(setSnackbarMessage(...))
    | Close                                                   // the `close` prop
    | OpenActivityDetails(activity: Activity)                 // the `openActivityDetails` prop
    | WriteClipboard(text: string)                            // navigator.clipboard.writeText
    | OpenTab(url: string)                                    // window.open(url, "_blank")

  /** The buttons of the action row. */
  datatype Action = DontShow | AddToAssetList | CloseButton

  // ---------------------------------------------------------------------
  // Projections of an effect trace, used to state what a handler does.

  /** The metadata values written to the store, in order. */
  function MetadataWrites(trace: seq<Effect>): (r: seq<Metadata>)
  {
    if |trace| == 0 then []
    else (if trace[0].UpdateAssetMetadata? then [trace[0].metadata] else []) + MetadataWrites(trace[1..])
  }

  /** The texts written to the clipboard, in order. */
  function ClipboardWrites(trace: seq<Effect>): (r: seq<string>)
  {
    if |trace| == 0 then []
    else (if trace[0].WriteClipboard? then [trace[0].text] else []) + ClipboardWrites(trace[1..])
  }

  /** The activities whose details were opened, in order. */
  function Navigations(trace: seq<Effect>): (r: seq<Activity>)
  {
    if |trace| == 0 then []
    else (if trace[0].OpenActivityDetails? then [trace[0].activity] else []) + Navigations(trace[1..])
  }

  /** The snackbar messages raised, in order. */
  function Snackbars(trace: seq<Effect>): (r: seq<Snackbar>)
  {
    if |trace| == 0 then []
    else (if trace[0].ShowSnackbar? then [trace[0].message] else []) + Snackbars(trace[1..])
  }

  /** Every projection distributes over concatenation of traces. */
  lemma ProjectionsOfConcat(a: seq<Effect>, b: seq<Effect>)
    ensures MetadataWrites(a + b) == MetadataWrites(a) + MetadataWrites(b)
    ensures ClipboardWrites(a + b) == ClipboardWrites(a) + ClipboardWrites(b)
    ensures Navigations(a + b) == Navigations(a) + Navigations(b)
    ensures Snackbars(a + b) == Snackbars(a) + Snackbars(b)
  {
    MetadataWritesOfConcat(a, b);
    ClipboardWritesOfConcat(a, b);
    NavigationsOfConcat(a, b);
    SnackbarsOfConcat(a, b);
  }

  lemma {:induction false} MetadataWritesOfConcat(a: seq<Effect>, b: seq<Effect>)
    ensures MetadataWrites(a + b) == MetadataWrites(a) + MetadataWrites(b)
  {
    if |a| == 0 {
      assert a + b == b;
    } else {
      var head: seq<Metadata> := if a[0].UpdateAssetMetadata? then [a[0].metadata] else [];
      assert (a + b)[0] == a[0];
      assert (a + b)[1..] == a[1..] + b;
      MetadataWritesOfConcat(a[1..], b);
      calc {
        MetadataWrites(a + b);
        head + MetadataWrites(a[1..] + b);
        head + (MetadataWrites(a[1..]) + MetadataWrites(b));
        (head + MetadataWrites(a[1..])) + MetadataWrites(b);
        MetadataWrites(a) + MetadataWrites(b);
      }
    }
  }

  lemma {:induction false} ClipboardWritesOfConcat(a: seq<Effect>, b: seq<Effect>)
    ensures ClipboardWrites(a + b) == ClipboardWrites(a) + ClipboardWrites(b)
  {
    if |a| == 0 {
      assert a + b == b;
    } else {
      var head: seq<string> := if a[0].WriteClipboard? then [a[0].text] else [];
      assert (a + b)[0] == a[0];
      assert (a + b)[1..] == a[1..] + b;
      ClipboardWritesOfConcat(a[1..], b);
      calc {
        ClipboardWrites(a + b);
        head + ClipboardWrites(a[1..] + b);
        head + (ClipboardWrites(a[1..]) + ClipboardWrites(b));
        (head + ClipboardWrites(a[1..])) + ClipboardWrites(b);
        ClipboardWrites(a) + ClipboardWrites(b);
      }
    }
  }

  lemma {:induction false} NavigationsOfConcat(a: seq<Effect>, b: seq<Effect>)
    ensures Navigations(a + b) == Navigations(a) + Navigations(b)
  {
    if |a| == 0 {
      assert a + b == b;
    } else {
      var head: seq<Activity> := if a[0].OpenActivityDetails? then [a[0].activity] else [];
      assert (a + b)[0] == a[0];
      assert (a + b)[1..] == a[1..] + b;
      NavigationsOfConcat(a[1..], b);
      calc {
        Navigations(a + b);
        head + Navigations(a[1..] + b);
        head + (Navigations(a[1..]) + Navigations(b));
        (head + Navigations(a[1..])) + Navigations(b);
        Navigations(a) + Navigations(b);
      }
    }
  }

  lemma {:induction false} SnackbarsOfConcat(a: seq<Effect>, b: seq<Effect>)
    ensures Snackbars(a + b) == Snackbars(a) + Snackbars(b)
  {
    if |a| == 0 {
      assert a + b == b;
    } else {
      var head: seq<Snackbar> := if a[0].ShowSnackbar? then [a[0].message] else [];
      assert (a + b)[0] == a[0];
      assert (a + b)[1..] == a[1..] + b;
      SnackbarsOfConcat(a[1..], b);
      calc {
        Snackbars(a + b);
        head + Snackbars(a[1..] + b);
        head + (Snackbars(a[1..]) + Snackbars(b));
        (head + Snackbars(a[1..])) + Snackbars(b);
        Snackbars(a) + Snackbars(b);
      }
    }
  }

  /** The projections of a single effect. */
  lemma ProjectionsOfOne(e: Effect)
    ensures MetadataWrites([e]) == (if e.UpdateAssetMetadata? then [e.metadata] else [])
    ensures ClipboardWrites([e]) == (if e.WriteClipboard? then [e.text] else [])
    ensures Navigations([e]) == (if e.OpenActivityDetails? then [e.activity] else [])
    ensures Snackbars([e]) == (if e.ShowSnackbar? then [e.message] else [])
  {
    assert [e][1..] == [];
  }

  // ---------------------------------------------------------------------
  // Derived values.

  /** The contract address shown and linked: the asset's own `contractAddress`
      when it has one that is a non-empty string, and `""` otherwise. */
  function ContractAddress(asset: Asset): (r: string)
    ensures r != "" <==> asset.contractAddress.Has? && asset.contractAddress.value != ""
    ensures r != "" ==> r == asset.contractAddress.value
  {
    match asset.contractAddress
    case Has(a) => if a != "" then a else ""
    case _ => ""
  }

  /** `asset.metadata?.discoveryTxHash`. */
  function DiscoveryTxHash(asset: Asset): (r: Option<string>)
    ensures r.Some? <==> asset.metadata.Some? && asset.metadata.value.discoveryTxHash.Has?
    ensures r.Some? ==> r.value == asset.metadata.value.discoveryTxHash.value
  {
    match asset.metadata
    case None => None
    case Some(m) => m.discoveryTxHash.Read()
  }

  /** The discovery transaction row is rendered only for a truthy hash. */
  predicate ShowsDiscoveryRow(asset: Asset) {
    TruthyString(DiscoveryTxHash(asset))
  }

  /** `activityItem`: the activity correlated with the discovery hash. No
      activity is correlated with a missing or empty hash; otherwise it is the
      first loaded activity whose hash equals the discovery hash, if any. */
  function ActivityItem(asset: Asset, activities: seq<Activity>): (r: Option<Activity>)
    ensures !ShowsDiscoveryRow(asset) ==> r.None?
    ensures r.Some? ==> r.value in activities && DiscoveryTxHash(asset) == Some(r.value.hash)
    ensures r.Some? ==> IsFirstWithHash(activities, DiscoveryTxHash(asset).value, r.value)
    ensures ShowsDiscoveryRow(asset) ==>
      (r.None? <==> forall a :: a in activities ==> a.hash != DiscoveryTxHash(asset).value)
  {
    var h := DiscoveryTxHash(asset);
    if TruthyString(h) then
      var r := FindByHash(activities, h.value);
      if r.Some? then FindByHashIsFirstMatch(activities, h.value, r.value); r
      else r
    else None
  }

  // ---------------------------------------------------------------------
  // Handlers.

  /** `copyTxHash`: copy the hash, then raise the copy snackbar. */
  function CopyTxHash(txHash: string): (r: seq<Effect>)
    ensures |r| == 2 && r[0].WriteClipboard?
    ensures ClipboardWrites(r) == [txHash]
    ensures Snackbars(r) == [CopyTextSnackbar]
    ensures Navigations(r) == [] && MetadataWrites(r) == []
    ensures Close !in r
  {
    var copy, notify := WriteClipboard(txHash), ShowSnackbar(CopyTextSnackbar);
    ProjectionsOfConcat([copy], [notify]);
    ProjectionsOfOne(copy);
    ProjectionsOfOne(notify);
    [copy] + [notify]
  }

  /** The discovery row's click handler: open the correlated activity when
      there is one, otherwise copy the raw hash. */
  function DiscoveryClick(txHash: string, item: Option<Activity>): (r: seq<Effect>)
    ensures item.Some? ==> |r| == 1
    ensures item.None? ==> |r| == 2 && r[0].WriteClipboard?
    ensures item.Some? ==> Navigations(r) == [item.value] && ClipboardWrites(r) == [] && Snackbars(r) == []
    ensures item.None? ==> Navigations(r) == [] && ClipboardWrites(r) == [txHash] && Snackbars(r) == [CopyTextSnackbar]
    ensures MetadataWrites(r) == [] && Close !in r
  {
    match item
    case Some(a) =>
      ProjectionsOfOne(OpenActivityDetails(a));
      [OpenActivityDetails(a)]
    case None => CopyTxHash(txHash)
  }

  /** The discovery row: `None` when it is not rendered, otherwise the effects
      of clicking it given the loaded activities. */
  function DiscoveryRow(asset: Asset, activities: seq<Activity>): (r: Option<seq<Effect>>)
    ensures r.Some? <==> ShowsDiscoveryRow(asset)
  {
    if ShowsDiscoveryRow(asset) then
      Some(DiscoveryClick(DiscoveryTxHash(asset).value, ActivityItem(asset, activities)))
    else None
  }

  /** A store write followed by the "asset updated" snackbar and close writes
      exactly that metadata, and neither copies nor navigates. */
  lemma UpdateTraceProjections(write: Effect)
    requires write.UpdateAssetMetadata?
    ensures var t := [write, ShowSnackbar(AssetUpdatedSnackbar), Close];
      MetadataWrites(t) == [write.metadata] && Navigations(t) == [] && ClipboardWrites(t) == []
  {
    var notify := ShowSnackbar(AssetUpdatedSnackbar);
    var last, tail := [Close], [notify, Close];
    assert last[1..] == [] && tail[1..] == last && [write, notify, Close][1..] == tail;
    assert MetadataWrites(last) == [] && Navigations(last) == [] && ClipboardWrites(last) == [];
    assert MetadataWrites(tail) == [] && Navigations(tail) == [] && ClipboardWrites(tail) == [];
  }

  /** `handleUpdateAssetMetadata(update)`: persist the current metadata with
      the update spread over it, then raise the "asset updated" snackbar, then
      close the panel. */
  function HandleUpdateAssetMetadata(asset: Asset, update: JsMetadata): (r: seq<Effect>)
    ensures |r| == 3 && r[1] == ShowSnackbar(AssetUpdatedSnackbar) && r[2] == Close
    ensures r[0].UpdateAssetMetadata? && r[0].asset == asset
    ensures MetadataWrites(r) == [r[0].metadata]
    ensures update.verified.Present() ==> r[0].metadata.verified == update.verified
    ensures !update.verified.Present() && asset.metadata.Some? ==>
      r[0].metadata.verified == asset.metadata.value.verified
    ensures !update.discoveryTxHash.Present() && asset.metadata.Some? ==>
      r[0].metadata.discoveryTxHash == asset.metadata.value.discoveryTxHash
    ensures asset.metadata.None? ==> r[0].metadata == update
    ensures ToObject(r[0].metadata) == ToObject(asset.metadata.GetOr(Empty)) + ToObject(update)
    ensures Navigations(r) == [] && ClipboardWrites(r) == []
  {
    MergeIntoAbsent(update);
    var write := UpdateAssetMetadata(asset, MergeInto(asset.metadata, update));
    UpdateTraceProjections(write);
    [write, ShowSnackbar(AssetUpdatedSnackbar), Close]
  }

  /** The "add to asset list" handler: mark the asset verified. The metadata
      written has `verified` set to `true` and keeps the discovery hash and
      every other field of the current metadata. */
  function VerifyAsset(asset: Asset): (r: seq<Effect>)
    ensures |r| == 3
    ensures r[0].UpdateAssetMetadata? && r[0].asset == asset
    ensures r[0].metadata.verified == Has(true)
    ensures r[0].metadata.discoveryTxHash == asset.metadata.GetOr(Empty).discoveryTxHash
    ensures r[0].metadata.others == asset.metadata.GetOr(Empty).others
    ensures r[1] == ShowSnackbar(AssetUpdatedSnackbar) && r[2] == Close
  {
    MarkVerifiedPreservesProvenance(asset.metadata);
    HandleUpdateAssetMetadata(asset, MarkVerified)
  }

  /** The buttons of the action row, left to right. With the feature on:
      "don't show", then "add to asset list" for an unverified asset. With the
      feature off: only "close". */
  function OfferedActions(supportUnverified: bool, isUnverified: bool): (r: seq<Action>)
    ensures supportUnverified ==> |r| > 0 && r[0] == DontShow && CloseButton !in r
    ensures supportUnverified ==> (AddToAssetList in r <==> isUnverified)
    ensures !supportUnverified ==> r == [CloseButton]
    ensures forall i, j :: 0 <= i < j < |r| ==> r[i] != r[j]
  {
    if supportUnverified then
      [DontShow] + (if isUnverified then [AddToAssetList] else [])
    else [CloseButton]
  }

  /** What pressing a button does. "Don't show" is an unimplemented action and
      does nothing; "close" only closes; "add to asset list" verifies. */
  function Perform(action: Action, asset: Asset): (r: seq<Effect>)
    ensures action == DontShow ==> r == []
    ensures action == CloseButton ==> r == [Close]
    ensures action == AddToAssetList <==> MetadataWrites(r) != []
    ensures action == AddToAssetList ==>
      MetadataWrites(r) == [MergeInto(asset.metadata, MarkVerified)] && r[|r| - 1] == Close
    ensures action == AddToAssetList ==>
      |r| == 3 && r[0].UpdateAssetMetadata? && r[0].asset == asset && r[1] == ShowSnackbar(AssetUpdatedSnackbar)
  {
    match action
    case DontShow => []
    case CloseButton =>
      ProjectionsOfOne(Close);
      [Close]
    case AddToAssetList => VerifyAsset(asset)
  }

  /** `${blockExplorerUrl}/token/${contractAddress}`. */
  function TokenUrl(explorer: string, contractAddress: string): string {
    explorer + "/token/" + contractAddress
  }

  /** The contract address button: disabled, so without effect, when there is
      no block explorer URL; otherwise it opens the token's explorer page. */
  function ContractLinkClick(explorer: Option<string>, asset: Asset): (r: seq<Effect>)
    ensures !TruthyString(explorer) <==> r == []
    ensures r != [] ==> |r| == 1 && r[0].OpenTab?
    ensures r != [] ==> TokenAddressOf(explorer.value, r[0].url) == Some(ContractAddress(asset))
  {
    if TruthyString(explorer) then
      TokenUrlRoundTrip(explorer.value, ContractAddress(asset));
      [OpenTab(TokenUrl(explorer.value, ContractAddress(asset)))]
    else []
  }

  /** Reads the contract address back out of a token page URL of `explorer`. */
  function TokenAddressOf(explorer: string, url: string): Option<string> {
    var prefix := explorer + "/token/";
    if |prefix| <= |url| && url[..|prefix|] == prefix then Some(url[|prefix|..]) else None
  }

  /** The token URL determines the contract address it was built from. */
  lemma TokenUrlRoundTrip(explorer: string, contractAddress: string)
    ensures TokenAddressOf(explorer, TokenUrl(explorer, contractAddress)) == Some(contractAddress)
  {
  }

  // ---------------------------------------------------------------------
  // The banner.

  datatype BannerTitle = TitleUnverified | TitleVerified
  datatype BannerDescription = Description | OldDescription

  /** The banner's title and description: the "unverified" title exactly for
      an unverified asset, the current description exactly with the feature on. */
  function Banner(supportUnverified: bool, isUnverified: bool): (r: (BannerTitle, BannerDescription))
    ensures r.0 == TitleUnverified <==> isUnverified
    ensures r.1 == Description <==> supportUnverified
  {
    (if isUnverified then TitleUnverified else TitleVerified,
     if supportUnverified then Description else OldDescription)
  }

  /** The title follows only the verification state and the description only
      the feature flag: with the feature off the title still tells verified
      from unverified. */
  lemma BannerIndependence(f1: bool, f2: bool, u1: bool, u2: bool)
    ensures Banner(f1, u1).0 == Banner(f2, u1).0
    ensures Banner(f1, u1).1 == Banner(f1, u2).1
    ensures Banner(f1, u1).0 == TitleUnverified <==> u1
    ensures Banner(f1, u1).1 == Description <==> f1
  {
  }
}
