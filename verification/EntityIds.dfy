// Ids of the entities of a world (entity_id.h).
module EntityIds {
  type EntityId = nat

  const INVALID: EntityId := 0
  const ROOT: EntityId := 1
}
