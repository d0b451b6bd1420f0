/** `HubMessageSerializer.to_representation`: the serialized fields of a hub
    message, with `hubId` forced to text and a deleted message turned into a
    tombstone that carries none of its content. */
module HubSerializer {

  import opened Json

  /** The content keys a tombstone overwrites. */
  const TombstoneKeys: set<string> := {"text", "attachments", "messageType", "reactions", "myReaction"}

  /** What a tombstone holds under each overwritten key. */
  function TombstoneValue(k: string): Json
    requires k in TombstoneKeys
  {
    match k
    case "text" => JStr("")
    case "attachments" => JArr([])
    case "messageType" => JStr("TEXT")
    case "reactions" => JArr([])
    case _ => JNull
  }

  /** `to_representation(instance)` over the fields the base serializer
      produced; `deletedAt` is the instance's `deleted_at` (null or set). */
  function Represent(fields: map<string, Json>, hubId: string, deleted: bool): (data: map<string, Json>)
    ensures data.Keys == fields.Keys + {"hubId"} + (if deleted then TombstoneKeys else {})
    ensures data["hubId"] == JStr(hubId)
    ensures deleted ==> forall k :: k in TombstoneKeys ==> data[k] == TombstoneValue(k)
    ensures forall k :: k in fields && k != "hubId" && (!deleted || k !in TombstoneKeys) ==> data[k] == fields[k]
  {
    var data := fields["hubId" := JStr(hubId)];
    if deleted then
      data["text" := JStr("")]["attachments" := JArr([])]["messageType" := JStr("TEXT")]
          ["reactions" := JArr([])]["myReaction" := JNull]
    else data
  }

  /** Two deleted messages of the same hub that differ only in their content
      fields serialize the same: nothing of the deleted content shows. */
  lemma TombstoneHidesContent(f1: map<string, Json>, f2: map<string, Json>, hubId: string)
    requires f1.Keys == f2.Keys
    requires forall k :: k in f1 && k !in TombstoneKeys ==> f1[k] == f2[k]
    ensures Represent(f1, hubId, true) == Represent(f2, hubId, true)
  {
    var d1, d2 := Represent(f1, hubId, true), Represent(f2, hubId, true);
    assert d1.Keys == d2.Keys;
    forall k | k in d1 ensures d1[k] == d2[k] {
      if k in TombstoneKeys {
        assert d1[k] == TombstoneValue(k) == d2[k];
      }
    }
  }

  /** Serializing an already serialized message again changes nothing. */
  lemma RepresentIdempotent(fields: map<string, Json>, hubId: string, deleted: bool)
    ensures Represent(Represent(fields, hubId, deleted), hubId, deleted) == Represent(fields, hubId, deleted)
  {
    var d := Represent(fields, hubId, deleted);
    var dd := Represent(d, hubId, deleted);
    assert dd.Keys == d.Keys;
    forall k | k in d ensures dd[k] == d[k] {
      if deleted && k in TombstoneKeys {
        assert dd[k] == TombstoneValue(k) == d[k];
      }
    }
  }
}
