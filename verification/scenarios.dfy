/** Properties of the panel as a whole: how the correlation, the discovery
    row, the offered buttons and their effects fit together. */
module PanelProperties {
  import opened Wrappers
  import opened AssetMetadata
  import opened Activities
  import opened AssetWarning

  /** When the row is shown and some loaded activity carries the discovery
      hash, clicking the row opens the first such activity and copies nothing. */
  lemma ClickOpensFirstMatch(asset: Asset, activities: seq<Activity>, a: Activity)
    requires ShowsDiscoveryRow(asset)
    requires a in activities && a.hash == DiscoveryTxHash(asset).value
    ensures DiscoveryRow(asset, activities).Some?
    ensures |Navigations(DiscoveryRow(asset, activities).value)| == 1
    ensures IsFirstWithHash(activities, a.hash, Navigations(DiscoveryRow(asset, activities).value)[0])
    ensures ClipboardWrites(DiscoveryRow(asset, activities).value) == []
  {
  }

  /** When the row is shown and no loaded activity carries the discovery hash,
      clicking the row copies exactly that hash, raises the copy snackbar and
      opens nothing. */
  lemma ClickCopiesWhenUnmatched(asset: Asset, activities: seq<Activity>)
    requires ShowsDiscoveryRow(asset)
    requires forall a :: a in activities ==> a.hash != DiscoveryTxHash(asset).value
    ensures DiscoveryRow(asset, activities).Some?
    ensures ClipboardWrites(DiscoveryRow(asset, activities).value) == [DiscoveryTxHash(asset).value]
    ensures Snackbars(DiscoveryRow(asset, activities).value) == [CopyTextSnackbar]
    ensures Navigations(DiscoveryRow(asset, activities).value) == []
  {
  }

  /** A missing or empty discovery hash correlates with nothing, even when an
      activity has an empty hash, and the row is not shown. */
  lemma MissingOrEmptyHashCorrelatesNothing(asset: Asset, activities: seq<Activity>)
    requires DiscoveryTxHash(asset) == None || DiscoveryTxHash(asset) == Some("")
    ensures ActivityItem(asset, activities) == None
    ensures DiscoveryRow(asset, activities) == None
  {
  }

  /** Activities appended after the loaded window never change a match
      already found in it. */
  lemma CorrelationStableUnderAppend(asset: Asset, loaded: seq<Activity>, appended: seq<Activity>)
    requires ActivityItem(asset, loaded).Some?
    ensures ActivityItem(asset, loaded + appended) == ActivityItem(asset, loaded)
  {
    FindByHashOverConcatenation(loaded, appended, DiscoveryTxHash(asset).value);
  }

  /** With the feature off, every offered button only closes the panel. */
  lemma LegacyPanelOnlyCloses(isUnverified: bool, asset: Asset)
    ensures forall a :: a in OfferedActions(false, isUnverified) ==>
      Perform(a, asset) == [Close] && MetadataWrites(Perform(a, asset)) == []
  {
  }

  /** "Don't show" is always offered with the feature on and does nothing. */
  lemma DontShowOfferedAndInert(isUnverified: bool, asset: Asset)
    ensures DontShow in OfferedActions(true, isUnverified)
    ensures Perform(DontShow, asset) == []
  {
  }

  /** Some offered button writes metadata exactly when the feature is on and
      the asset is unverified, and what it writes is the current metadata
      marked verified. */
  lemma MetadataWrittenIffFeatureOnAndUnverified(supportUnverified: bool, isUnverified: bool, asset: Asset)
    ensures (exists a :: a in OfferedActions(supportUnverified, isUnverified) && MetadataWrites(Perform(a, asset)) != [])
      <==> supportUnverified && isUnverified
    ensures forall a :: a in OfferedActions(supportUnverified, isUnverified) && MetadataWrites(Perform(a, asset)) != [] ==>
      MetadataWrites(Perform(a, asset)) == [MergeInto(asset.metadata, MarkVerified)]
  {
    if supportUnverified && isUnverified {
      assert AddToAssetList in OfferedActions(supportUnverified, isUnverified);
    }
  }

  /** Verifying an asset whose metadata was already written by a verification
      writes the same metadata again. */
  lemma VerifyTwiceWritesSameMetadata(asset: Asset)
    ensures var written := VerifyAsset(asset)[0].metadata;
      VerifyAsset(asset.(metadata := Some(written)))[0].metadata == written
  {
  }

  /** The discovery scenario with hash "0xDEAD": with a loaded activity of that
      hash the row opens it; without one the row copies "0xDEAD". */
  lemma ExampleDiscoveryScenarios()
    ensures var asset := Asset("TKN", Has("0x1234"), Some(Metadata(Missing, Has("0xDEAD"), map[])));
      && DiscoveryRow(asset, [Activity("0xBEEF", "swap"), Activity("0xDEAD", "transfer")])
           == Some([OpenActivityDetails(Activity("0xDEAD", "transfer"))])
      && DiscoveryRow(asset, [Activity("0xBEEF", "swap")])
           == Some([WriteClipboard("0xDEAD"), ShowSnackbar(CopyTextSnackbar)])
  {
    var asset := Asset("TKN", Has("0x1234"), Some(Metadata(Missing, Has("0xDEAD"), map[])));
    var dead := Activity("0xDEAD", "transfer");
    var other := Activity("0xBEEF", "swap");
    assert DiscoveryTxHash(asset) == Some("0xDEAD");
    assert ShowsDiscoveryRow(asset);
    var item := ActivityItem(asset, [other, dead]);
    assert dead in [other, dead];
    assert item.Some?;
    assert item.value == dead;
    assert ActivityItem(asset, [other]) == None;
    assert [WriteClipboard("0xDEAD")] + [ShowSnackbar(CopyTextSnackbar)]
      == [WriteClipboard("0xDEAD"), ShowSnackbar(CopyTextSnackbar)];
  }

  /** Marking `{ discoveryTxHash: "0xA" }` verified yields
      `{ discoveryTxHash: "0xA", verified: true }`; marking absent metadata
      verified yields `{ verified: true }`. */
  lemma ExampleMarkVerified()
    ensures MergeInto(Some(Metadata(Missing, Has("0xA"), map[])), MarkVerified) == Metadata(Has(true), Has("0xA"), map[])
    ensures MergeInto(None, MarkVerified) == MarkVerified
  {
  }
}
