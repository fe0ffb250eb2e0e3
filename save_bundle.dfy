/** The save bundles: the current schema (version 2), the legacy one
    (version 1) with its migration, and the dispatch on the version a file's
    header names. */
module SaveBundle {
  import opened Base
  import opened SaveFormat

  /** A save id (a random UUID). */
  type Uuid = nat

  /** A creation time, ordered as the clock orders it. */
  type Timestamp = int

  datatype WorldState = WorldState(tick: nat, ecsBlob: seq<byte>, stateHash: nat)

  datatype ItemStack = ItemStack(kind: string, qty: nat, attrs: map<string, int>)

  datatype PlayerInventory = PlayerInventory(credits: nat, items: seq<ItemStack>)

  datatype CompanionProfile = CompanionProfile(id: string, name: string, level: nat, skills: seq<string>,
                                               facts: seq<string>, episodesSummarized: seq<string>)

  datatype SaveBundleV2 = SaveBundleV2(schema: u16, saveId: Uuid, createdAt: Timestamp, playerId: string,
                                       slot: byte, world: WorldState, companions: seq<CompanionProfile>,
                                       inventory: PlayerInventory, meta: map<string, string>)

  /** The legacy bundle had at most one companion and no save id. */
  datatype SaveBundleV1 = SaveBundleV1(playerId: string, slot: byte, createdAt: Timestamp, world: WorldState,
                                       inventory: PlayerInventory, companion: Option<CompanionProfile>,
                                       meta: map<string, string>)

  /** `SaveBundleV1::into_v2`, with the fresh save id given. */
  function IntoV2(v1: SaveBundleV1, newId: Uuid): (v2: SaveBundleV2)
    ensures v2.schema == SaveSchemaVersion && v2.saveId == newId
    ensures v2.createdAt == v1.createdAt && v2.playerId == v1.playerId && v2.slot == v1.slot
    ensures v2.world == v1.world && v2.inventory == v1.inventory && v2.meta == v1.meta
    ensures |v2.companions| <= 1 && (|v2.companions| == 1 <==> v1.companion.Some?)
    ensures v1.companion.Some? ==> v2.companions[0] == v1.companion.value
  {
    SaveBundleV2(SaveSchemaVersion, newId, v1.createdAt, v1.playerId, v1.slot, v1.world,
                 if v1.companion.Some? then [v1.companion.value] else [],
                 v1.inventory, v1.meta)
  }

  /** Migration loses nothing: the legacy bundle is recovered from the new
      one. */
  lemma IntoV2Reversible(v1: SaveBundleV1, newId: Uuid)
    ensures var v2 := IntoV2(v1, newId);
      SaveBundleV1(v2.playerId, v2.slot, v2.createdAt, v2.world, v2.inventory,
                   if v2.companions == [] then None else Some(v2.companions[0]), v2.meta) == v1
  {
  }

  /** `read_awsv` and `migrate_file_to_latest` after the container is read,
      with the payload decoders given: version 2 decodes as is, version 1
      decodes as the legacy bundle and is migrated, any other version is
      an error. The decoded schema field is not checked. */
  function DecodeBundle(any: AnySave, decodeV1: seq<byte> -> Option<SaveBundleV1>,
                        decodeV2: seq<byte> -> Option<SaveBundleV2>, newId: Uuid)
    : (r: Result<SaveBundleV2, SaveError>)
    ensures r.Ok? ==> any.version == 1 || any.version == 2
    ensures any.version != 1 && any.version != 2 ==> r == Err(UnknownVersion(any.version))
    ensures any.version == 1 && r.Ok? ==> r.value.schema == SaveSchemaVersion && r.value.saveId == newId
  {
    if any.version == 2 then
      match decodeV2(any.blob)
      case None => Err(DecodeFailed(2))
      case Some(v2) => Ok(v2)
    else if any.version == 1 then
      match decodeV1(any.blob)
      case None => Err(DecodeFailed(1))
      case Some(v1) => Ok(IntoV2(v1, newId))
    else Err(UnknownVersion(any.version))
  }

  /** A legacy file that decodes loads as its migration. */
  lemma LegacyLoads(blob: seq<byte>, decodeV1: seq<byte> -> Option<SaveBundleV1>,
                    decodeV2: seq<byte> -> Option<SaveBundleV2>, newId: Uuid)
    requires decodeV1(blob).Some?
    ensures DecodeBundle(AnySave(1, blob), decodeV1, decodeV2, newId) == Ok(IntoV2(decodeV1(blob).value, newId))
  {
  }
}
