/** Asset metadata and the shallow merge the panel performs before it
    persists a verification decision (`{ ...asset.metadata, ...newMetadata }`). */
module AssetMetadata {
  import opened Wrappers

  const VerifiedKey: string := "verified"
  const DiscoveryTxHashKey: string := "discoveryTxHash"

  /** A metadata value as a plain JavaScript value. The panel never looks
      inside values other than `verified` and `discoveryTxHash`, so any other
      value is kept as an opaque serialised text. */
  datatype Value =
    | UndefinedValue
    | BoolValue(b: bool)
    | StringValue(s: string)
    | OtherValue(json: string)

  /** `AnyAssetMetadata`: the two fields the panel reads or writes, typed,
      and every other field by name. */
  datatype Metadata = Metadata(
    verified: Prop<bool>,
    discoveryTxHash: Prop<string>,
    others: map<string, Value>)

  /** The typed fields are not duplicated among the other fields. */
  predicate WellFormed(m: Metadata) {
    VerifiedKey !in m.others && DiscoveryTxHashKey !in m.others
  }

  /** Metadata that stands for a JavaScript object: each property name occurs once. */
  type JsMetadata = m: Metadata | WellFormed(m) witness Metadata(Missing, Missing, map[])

  /** The object `{}`. */
  const Empty: JsMetadata := Metadata(Missing, Missing, map[])

  /** The update `{ verified: true }` that the "add to asset list" action sends. */
  const MarkVerified: JsMetadata := Metadata(Has(true), Missing, map[])

  /** One property under spread: the update's own property wins, even when its
      value is `undefined`; otherwise the base's property survives. */
  function Override<T>(base: Prop<T>, update: Prop<T>): Prop<T> {
    if update.Present() then update else base
  }

  /** Object spread `{ ...base, ...update }` on two metadata objects. */
  function Spread(base: Metadata, update: Metadata): (r: Metadata)
    ensures update.verified.Present() ==> r.verified == update.verified
    ensures !update.verified.Present() ==> r.verified == base.verified
    ensures update.discoveryTxHash.Present() ==> r.discoveryTxHash == update.discoveryTxHash
    ensures !update.discoveryTxHash.Present() ==> r.discoveryTxHash == base.discoveryTxHash
    ensures r.others.Keys == base.others.Keys + update.others.Keys
    ensures forall k :: k in update.others ==> r.others[k] == update.others[k]
    ensures forall k :: k in base.others && k !in update.others ==> r.others[k] == base.others[k]
    ensures WellFormed(base) && WellFormed(update) ==> WellFormed(r)
  {
    Metadata(
      Override(base.verified, update.verified),
      Override(base.discoveryTxHash, update.discoveryTxHash),
      base.others + update.others)
  }

  /** `{ ...current, ...update }` where `current` may be `undefined`;
      spreading `undefined` contributes no property. */
  function MergeInto(current: Option<JsMetadata>, update: JsMetadata): (r: JsMetadata)
    ensures ToObject(r) == ToObject(current.GetOr(Empty)) + ToObject(update)
  {
    SpreadIsObjectSpread(current.GetOr(Empty), update);
    Spread(current.GetOr(Empty), update)
  }

  /** The typed `verified` field as plain object properties. */
  function VerifiedEntry(p: Prop<bool>): (e: map<string, Value>)
    ensures e.Keys <= {VerifiedKey}
    ensures VerifiedKey in e <==> p.Present()
  {
    match p
    case Missing => map[]
    case Undefined => map[VerifiedKey := UndefinedValue]
    case Has(b) => map[VerifiedKey := BoolValue(b)]
  }

  /** The typed `discoveryTxHash` field as plain object properties. */
  function HashEntry(p: Prop<string>): (e: map<string, Value>)
    ensures e.Keys <= {DiscoveryTxHashKey}
    ensures DiscoveryTxHashKey in e <==> p.Present()
  {
    match p
    case Missing => map[]
    case Undefined => map[DiscoveryTxHashKey := UndefinedValue]
    case Has(s) => map[DiscoveryTxHashKey := StringValue(s)]
  }

  /** The metadata as the plain JavaScript object it stands for: a finite map
      from own property names to values. */
  function ToObject(m: Metadata): (o: map<string, Value>)
    ensures WellFormed(m) ==> (VerifiedKey in o <==> m.verified.Present())
    ensures WellFormed(m) ==> (DiscoveryTxHashKey in o <==> m.discoveryTxHash.Present())
    ensures forall k :: k in m.others && k != VerifiedKey && k != DiscoveryTxHashKey ==> k in o && o[k] == m.others[k]
  {
    m.others + VerifiedEntry(m.verified) + HashEntry(m.discoveryTxHash)
  }

  /** Spread on the typed record is exactly JavaScript object spread on the
      plain objects: the key set is the union and the update's value wins on
      every key it has. */
  lemma SpreadIsObjectSpread(base: JsMetadata, update: JsMetadata)
    ensures ToObject(Spread(base, update)) == ToObject(base) + ToObject(update)
  {
    var lhs := ToObject(Spread(base, update));
    var rhs := ToObject(base) + ToObject(update);
    forall k | k in lhs || k in rhs
      ensures k in lhs && k in rhs && lhs[k] == rhs[k]
    {
      if k == VerifiedKey {
        SpreadKeyVerified(base, update);
      } else if k == DiscoveryTxHashKey {
        SpreadKeyHash(base, update);
      } else {
        SpreadKeyOther(base, update, k);
      }
    }
  }

  /** Any other key of both sides of `SpreadIsObjectSpread`. */
  lemma SpreadKeyOther(base: Metadata, update: Metadata, k: string)
    requires k != VerifiedKey && k != DiscoveryTxHashKey
    ensures var lhs, rhs := ToObject(Spread(base, update)), ToObject(base) + ToObject(update);
      (k in lhs <==> k in rhs) && (k in lhs ==> lhs[k] == rhs[k])
  {
    var r := Spread(base, update);
    assert k !in VerifiedEntry(r.verified) && k !in HashEntry(r.discoveryTxHash);
    assert k !in VerifiedEntry(base.verified) && k !in HashEntry(base.discoveryTxHash);
    assert k !in VerifiedEntry(update.verified) && k !in HashEntry(update.discoveryTxHash);
  }

  /** The `verified` key of both sides of `SpreadIsObjectSpread`. */
  lemma SpreadKeyVerified(base: JsMetadata, update: JsMetadata)
    ensures var lhs, rhs := ToObject(Spread(base, update)), ToObject(base) + ToObject(update);
      (VerifiedKey in lhs <==> VerifiedKey in rhs) && (VerifiedKey in lhs ==> lhs[VerifiedKey] == rhs[VerifiedKey])
  {
  }

  /** The `discoveryTxHash` key of both sides of `SpreadIsObjectSpread`. */
  lemma SpreadKeyHash(base: JsMetadata, update: JsMetadata)
    ensures var lhs, rhs := ToObject(Spread(base, update)), ToObject(base) + ToObject(update);
      (DiscoveryTxHashKey in lhs <==> DiscoveryTxHashKey in rhs)
      && (DiscoveryTxHashKey in lhs ==> lhs[DiscoveryTxHashKey] == rhs[DiscoveryTxHashKey])
  {
  }

  /** Every property of the merge comes from the update when the update has
      it and from the current metadata otherwise; absent current metadata
      contributes nothing. */
  lemma MergeTakesUpdateThenCurrent(current: Option<JsMetadata>, update: JsMetadata, k: string)
    ensures k in ToObject(update) ==>
      k in ToObject(MergeInto(current, update)) && ToObject(MergeInto(current, update))[k] == ToObject(update)[k]
    ensures k !in ToObject(update) && current.Some? && k in ToObject(current.value) ==>
      k in ToObject(MergeInto(current, update)) && ToObject(MergeInto(current, update))[k] == ToObject(current.value)[k]
    ensures k !in ToObject(update) && (current.None? || k !in ToObject(current.value)) ==>
      k !in ToObject(MergeInto(current, update))
  {
  }

  /** Merging into absent metadata yields the update itself. */
  lemma MergeIntoAbsent(update: JsMetadata)
    ensures MergeInto(None, update) == update
  {
    assert Empty.others + update.others == update.others;
  }

  /** Merging the same update a second time changes nothing. */
  lemma MergeIdempotent(current: Option<JsMetadata>, update: JsMetadata)
    ensures MergeInto(Some(MergeInto(current, update)), update) == MergeInto(current, update)
  {
    var once := Spread(current.GetOr(Empty), update);
    assert once.others + update.others == once.others;
    assert Spread(once, update) == once;
  }

  /** Marking an asset verified sets `verified` to `true` and leaves the
      discovery transaction hash and every other field exactly as they were. */
  lemma MarkVerifiedPreservesProvenance(current: Option<JsMetadata>)
    ensures MergeInto(current, MarkVerified).verified == Has(true)
    ensures MergeInto(current, MarkVerified).discoveryTxHash == current.GetOr(Empty).discoveryTxHash
    ensures MergeInto(current, MarkVerified).others == current.GetOr(Empty).others
  {
    assert current.GetOr(Empty).others + MarkVerified.others == current.GetOr(Empty).others;
  }
}
