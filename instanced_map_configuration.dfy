/** `InstancedMapConfiguration.Builder`: the settings of an instanced map,
    gathered by setters that update the builder in place, and `build`, which
    checks them and hands back the configuration. */
module InstancedMaps {
  import opened Common

  /** The lifecycle attributes. Only the two that need an owner are named by
      the builder; the others are told apart by their ordinal. */
  datatype InstancedMapAttribute = DEALLOCATE_ON_LOGOUT | DEALLOCATE_ON_DEATH | OtherAttribute(ordinal: nat)

  datatype PlayerUid = PlayerUid(value: int)

  /** An npc to spawn, on a tile relative to the instance's bottom left. */
  datatype Npc = Npc(id: int, tile: Tile)

  const EXIT_TILE_NOT_SET: string := "Exit tile must be set."

  const OWNER_NOT_SET: string := "One or more attributes require an owner to be set."

  /** The attributes that make the instance follow its owner. */
  const OWNER_REQUIRED: set<InstancedMapAttribute> := {DEALLOCATE_ON_LOGOUT, DEALLOCATE_ON_DEATH}

  datatype InstancedMapConfiguration = InstancedMapConfiguration(
    exitTile: Tile,
    owner: Option<PlayerUid>,
    attributes: set<InstancedMapAttribute>,
    bypassObjectChunkBounds: bool,
    npcs: seq<Npc>)

  /** An owner is set, or no attribute requires one. */
  predicate OwnerSatisfied(owner: Option<PlayerUid>, attributes: set<InstancedMapAttribute>) {
    owner.Some? || forall a :: a in attributes ==> a !in OWNER_REQUIRED
  }

  class Builder {
    var exitTile: Option<Tile>
    var owner: Option<PlayerUid>
    var attributes: set<InstancedMapAttribute>
    var bypassObjectChunkBounds: bool
    var npcs: seq<Npc>

    /** A builder with nothing set: no exit tile, no owner, no attributes,
        objects kept within their chunk, no npcs. */
    constructor()
      ensures exitTile == None && owner == None && attributes == {}
      ensures !bypassObjectChunkBounds && npcs == []
    {
      exitTile := None;
      owner := None;
      attributes := {};
      bypassObjectChunkBounds := false;
      npcs := [];
    }

    /** `build`: fails without an exit tile, then fails when an attribute
        needs an owner and none is set; otherwise the configuration carries
        exactly the builder's settings. */
    method Build() returns (r: Result<InstancedMapConfiguration>)
      ensures exitTile.None? ==> r == Failure(EXIT_TILE_NOT_SET)
      ensures exitTile.Some? && !OwnerSatisfied(owner, attributes) ==> r == Failure(OWNER_NOT_SET)
      ensures r.Success? <==> exitTile.Some? && OwnerSatisfied(owner, attributes)
      ensures r.Success? ==>
        r.value == InstancedMapConfiguration(exitTile.value, owner, attributes, bypassObjectChunkBounds, npcs)
      ensures r.Success? ==> OwnerSatisfied(r.value.owner, r.value.attributes)
    {
      var ownerRequired := {DEALLOCATE_ON_LOGOUT, DEALLOCATE_ON_DEATH};
      if exitTile.None? {
        return Failure(EXIT_TILE_NOT_SET);
      }
      if !(owner.Some? || attributes * ownerRequired == {}) {
        assert exists a :: a in attributes && a in OWNER_REQUIRED;
        return Failure(OWNER_NOT_SET);
      }
      assert OwnerSatisfied(owner, attributes) by {
        if owner.None? {
          forall a | a in attributes ensures a !in OWNER_REQUIRED {
            assert a !in attributes * ownerRequired;
          }
        }
      }
      r := Success(InstancedMapConfiguration(exitTile.value, owner, attributes, bypassObjectChunkBounds, npcs));
    }

    method SetExitTile(tile: Tile) returns (b: Builder)
      modifies this`exitTile
      ensures b == this && exitTile == Some(tile)
    {
      exitTile := Some(tile);
      b := this;
    }

    method SetOwner(uid: PlayerUid) returns (b: Builder)
      modifies this`owner
      ensures b == this && owner == Some(uid)
    {
      owner := Some(uid);
      b := this;
    }

    /** `addAttribute(attribute, vararg others)`: set union, so adding an
        attribute that is already there changes nothing. */
    method AddAttribute(attribute: InstancedMapAttribute, others: seq<InstancedMapAttribute>) returns (b: Builder)
      modifies this`attributes
      ensures b == this
      ensures attributes == old(attributes) + {attribute} + set a | a in others
    {
      attributes := attributes + {attribute};
      attributes := attributes + set a | a in others;
      b := this;
    }

    /** `addNpc(npc)`: appended, in call order. */
    method AddNpc(npc: Npc)
      modifies this`npcs
      ensures npcs == old(npcs) + [npc]
    {
      npcs := npcs + [npc];
    }

    /** `addNpc(id, relativeX, relativeZ, height, world)`: the npc is placed
        on the relative tile as given, not offset to the instance. */
    method AddNpcAt(id: int, relativeX: int, relativeZ: int, height: int)
      modifies this`npcs
      ensures npcs == old(npcs) + [Npc(id, Tile(relativeX, relativeZ, height))]
    {
      AddNpc(Npc(id, Tile(relativeX, relativeZ, height)));
    }

    method SetBypassObjectChunkBounds(bypass: bool) returns (b: Builder)
      modifies this`bypassObjectChunkBounds
      ensures b == this && bypassObjectChunkBounds == bypass
    {
      bypassObjectChunkBounds := bypass;
      b := this;
    }
  }

  /** A fresh builder with an exit tile and the deallocate-on-logout
      attribute does not build until an owner is set; with one, the
      configuration carries that owner and keeps the default bypass flag. */
  method OwnerRequiredForLogout(exit: Tile, uid: PlayerUid)
    returns (withoutOwner: Result<InstancedMapConfiguration>, withOwner: Result<InstancedMapConfiguration>)
    ensures withoutOwner == Failure(OWNER_NOT_SET)
    ensures withOwner.Success? && withOwner.value.owner == Some(uid) && withOwner.value.exitTile == exit
    ensures withOwner.Success? && withOwner.value.attributes == {DEALLOCATE_ON_LOGOUT}
    ensures withOwner.Success? && !withOwner.value.bypassObjectChunkBounds && withOwner.value.npcs == []
  {
    var builder := new Builder();
    var b := builder.SetExitTile(exit);
    var none: seq<InstancedMapAttribute> := [];
    b := builder.AddAttribute(DEALLOCATE_ON_LOGOUT, none);
    assert (set a | a in none) == {};
    assert builder.attributes == {DEALLOCATE_ON_LOGOUT};
    assert !OwnerSatisfied(builder.owner, builder.attributes) by {
      assert DEALLOCATE_ON_LOGOUT in builder.attributes && DEALLOCATE_ON_LOGOUT in OWNER_REQUIRED;
    }
    withoutOwner := builder.Build();
    b := builder.SetOwner(uid);
    withOwner := builder.Build();
  }

  /** Adding the same attributes twice leaves the set as after the first
      time. */
  method AddAttributeTwice(builder: Builder, attribute: InstancedMapAttribute, others: seq<InstancedMapAttribute>)
    modifies builder`attributes
    ensures builder.attributes == old(builder.attributes) + {attribute} + set a | a in others
  {
    var b := builder.AddAttribute(attribute, others);
    ghost var once := builder.attributes;
    b := builder.AddAttribute(attribute, others);
    assert builder.attributes == once;
  }
}
