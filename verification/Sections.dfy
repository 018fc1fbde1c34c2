/** Source/Server/Section: a section keeps its objects in six containers, which must agree. */
module Sections {
  import opened Common
  import opened Registry

  class SpawnSystem {
    var npcs: Objects
    var projectiles: Objects
    var spawnCounts: map<int, int>

    constructor ()
      ensures npcs == projectiles == map[] && spawnCounts == map[]
    {
      npcs, projectiles, spawnCounts := map[], map[], map[];
    }

    method OnSectionDestroyed()
      modifies this`npcs, this`projectiles
      ensures npcs == projectiles == map[]
    {
      npcs, projectiles := map[], map[];
    }

    method SpawnNpcOnSection(npc: GameObject) returns (ok: bool)
      modifies this`npcs, this`spawnCounts
      ensures ok == (npc.objectId !in old(npcs))
      ensures npcs == if ok then old(npcs)[npc.objectId := npc] else old(npcs)
      ensures spawnCounts == if ok then Raised(old(spawnCounts), npc) else old(spawnCounts)
    {
      if npc.objectId in npcs {
        return false;
      }
      npcs := npcs[npc.objectId := npc];
      if npc.spawnerId > 0 {
        var spawnCount := Count(spawnCounts, npc.spawnerId);
        spawnCounts := spawnCounts[npc.spawnerId := spawnCount + 1];
      }
      return true;
    }

    method DespawnNpcOnSection(npc: GameObject) returns (ok: bool)
      modifies this`npcs, this`spawnCounts
      ensures ok == (npc.objectId in old(npcs)) && npcs == old(npcs) - {npc.objectId}
      ensures spawnCounts == if ok then Lowered(old(spawnCounts), npc) else old(spawnCounts)
    {
      if npc.objectId !in npcs {
        return false;
      }
      npcs := npcs - {npc.objectId};
      if npc.spawnerId > 0 {
        var spawnCount := Count(spawnCounts, npc.spawnerId);
        spawnCounts := spawnCounts[npc.spawnerId := spawnCount];
        if spawnCount > 0 {
          spawnCounts := spawnCounts[npc.spawnerId := spawnCount - 1];
        }
      }
      return true;
    }

    method SpawnProjectileOnSection(projectile: GameObject) returns (ok: bool)
      modifies this`projectiles
      ensures ok == (projectile.objectId !in old(projectiles))
      ensures projectiles == if ok then old(projectiles)[projectile.objectId := projectile] else old(projectiles)
    {
      if projectile.objectId in projectiles {
        return false;
      }
      projectiles := projectiles[projectile.objectId := projectile];
      return true;
    }

    method DespawnProjectileOnSection(projectile: GameObject) returns (ok: bool)
      modifies this`projectiles
      ensures ok == (projectile.objectId in old(projectiles))
      ensures projectiles == old(projectiles) - {projectile.objectId}
    {
      ok := projectile.objectId in projectiles;
      projectiles := projectiles - {projectile.objectId};
    }

    method OnGameObjectAdded(o: GameObject)
      modifies this
      ensures var unknown := o.kind == Npc && o.objectId !in old(npcs);
        && npcs == (if unknown then old(npcs)[o.objectId := o] else old(npcs))
        && spawnCounts == (if unknown then Raised(old(spawnCounts), o) else old(spawnCounts))
      ensures var unknown := o.kind == Projectile && o.objectId !in old(projectiles);
        projectiles == if unknown then old(projectiles)[o.objectId := o] else old(projectiles)
    {
      match o.kind {
        case Npc => var _ := SpawnNpcOnSection(o);
        case Projectile => var _ := SpawnProjectileOnSection(o);
        case Pc =>
        case Other =>
      }
    }

    method OnGameObjectRemoved(o: GameObject)
      modifies this
      ensures var known := o.kind == Npc && o.objectId in old(npcs);
        && npcs == (if known then old(npcs) - {o.objectId} else old(npcs))
        && spawnCounts == (if known then Lowered(old(spawnCounts), o) else old(spawnCounts))
      ensures projectiles == if o.kind == Projectile then old(projectiles) - {o.objectId} else old(projectiles)
    {
      match o.kind {
        case Npc => var _ := DespawnNpcOnSection(o);
        case Projectile => var _ := DespawnProjectileOnSection(o);
        case Pc =>
        case Other =>
      }
    }

    /** Spawns a batch, dropping those whose number is taken; `es` are the objects with their numbers. */
    method SpawnNpcsOnSection(batch: seq<GameObject>, ghost es: seq<Entry>) returns (spawned: seq<GameObject>)
      requires ObjectsOf(es) == batch && Numbered(es)
      modifies this`npcs, this`spawnCounts
      ensures spawned == ObjectsOf(Taken(old(npcs), es))
      ensures npcs == AddAll(old(npcs), Taken(old(npcs), es))
      ensures spawnCounts == RaisedAll(old(spawnCounts), Taken(old(npcs), es))
    {
      spawned := batch;
      ghost var n, counts, seen := npcs, spawnCounts, 0;
      ghost var t: seq<Entry> := [];
      hide Taken, AddAll, RaisedAll, Raised, Spawning, ObjectsOf, EraseAt;
      SpawnStart(n, counts, batch, es);
      SpawnNext(n, counts, batch, es, seen, t, spawned, npcs, spawnCounts);
      var i := 0;
      while i < |spawned|
        invariant seen <= |es| && i == |t| && (|t| < |spawned| <==> seen < |es|)
        invariant Spawning(n, counts, batch, es, seen, t, spawned, npcs, spawnCounts)
        decreases |es| - seen
      {
        SpawnNext(n, counts, batch, es, seen, t, spawned, npcs, spawnCounts);
        assert es[seen] in es;
        var npc := spawned[i];
        var ok := SpawnNpcOnSection(npc);
        if ok {
          i := i + 1;
          t := t + [es[seen]];
        } else {
          spawned := EraseAt(spawned, i);
        }
        seen := seen + 1;
        SpawnNext(n, counts, batch, es, seen, t, spawned, npcs, spawnCounts);
      }
      SpawnNext(n, counts, batch, es, seen, t, spawned, npcs, spawnCounts);
    }
  }

  class CollisionSystem {
    var queryableColliders: Objects

    constructor ()
      ensures queryableColliders == map[]
    {
      queryableColliders := map[];
    }

    method OnSectionDestroyed()
      modifies this
      ensures queryableColliders == map[]
    {
      queryableColliders := map[];
    }

    method OnGameObjectAdded(o: GameObject)
      modifies this
      ensures var unknown := o.hasCollider && o.objectId !in old(queryableColliders);
        queryableColliders == if unknown then old(queryableColliders)[o.objectId := o] else old(queryableColliders)
    {
      if o.hasCollider && o.objectId !in queryableColliders {
        queryableColliders := queryableColliders[o.objectId := o];
      }
    }

    method OnGameObjectRemoved(o: GameObject)
      modifies this
      ensures queryableColliders == old(queryableColliders) - {o.objectId}
    {
      queryableColliders := queryableColliders - {o.objectId};
    }
  }

  class Section {
    const sectionId: nat
    const spawnSystem: SpawnSystem
    const collisionSystem: CollisionSystem
    var gameObjects: Objects
    var allTickObjects: seq<GameObject>
    var awaitFirstTickObjects: seq<GameObject>
    var objectsToDespawn: seq<GameObject>

    /** Every object is registered under its own number, which is not 0. */
    ghost predicate Keyed()
      reads this`gameObjects, gameObjects.Values`objectId
    {
      Carry(gameObjects)
    }

    /** The indexes hold exactly the registered objects they are for. */
    ghost predicate Indexed()
      reads this`gameObjects, spawnSystem, collisionSystem
    {
      && spawnSystem.npcs == OfKind(gameObjects, Npc)
      && spawnSystem.projectiles == OfKind(gameObjects, Projectile)
      && collisionSystem.queryableColliders == WithCollider(gameObjects)
      && CountsRight(spawnSystem.spawnCounts, gameObjects)
    }

    /** The six containers agree, but that the objects in `limbo` are in no tick list. */
    ghost predicate AgreeBut(limbo: seq<GameObject>)
      reads this`gameObjects, this`allTickObjects, this`awaitFirstTickObjects, gameObjects.Values`objectId
      reads spawnSystem, collisionSystem
    {
      Keyed() && Indexed() && Lists(allTickObjects + awaitFirstTickObjects + limbo, gameObjects)
    }

    ghost predicate Agree()
      reads this, gameObjects.Values`objectId, spawnSystem, collisionSystem
    {
      AgreeBut([]) && objectsToDespawn == []
    }

    constructor (sectionId: nat)
      ensures Agree() && gameObjects == map[] && fresh(spawnSystem) && fresh(collisionSystem)
    {
      this.sectionId := sectionId;
      spawnSystem := new SpawnSystem();
      collisionSystem := new CollisionSystem();
      gameObjects, allTickObjects, awaitFirstTickObjects, objectsToDespawn := map[], [], [], [];
    }

    method AddGameObject(o: GameObject, now: int) returns (ok: bool)
      requires Agree() && o.objectId != 0
      modifies this, spawnSystem, collisionSystem, o`sectionId, o`createdTick
      ensures Agree() && ok == (o.objectId !in old(gameObjects))
      ensures gameObjects == if ok then old(gameObjects)[o.objectId := o] else old(gameObjects)
      ensures allTickObjects == old(allTickObjects)
      ensures awaitFirstTickObjects == old(awaitFirstTickObjects) + if ok then [o] else []
      ensures ok ==> o.sectionId == sectionId && o.createdTick == now
    {
      if o.objectId in gameObjects {
        return false;
      }
      ghost var m, id, lists := gameObjects, o.objectId, allTickObjects + awaitFirstTickObjects;
      AgreeParts();
      CarryFree(m, o);
      CarryMore(m, o);
      IndexesAdd(m, id, o, spawnSystem.spawnCounts);
      ListsAdd(lists, m, id, o);
      hide OfKind, WithCollider, CountsRight, Lists, Carry, Registered, Agree;
      gameObjects := gameObjects[o.objectId := o];
      o.sectionId := sectionId;
      o.createdTick := now;
      awaitFirstTickObjects := awaitFirstTickObjects + [o];
      assert allTickObjects + awaitFirstTickObjects == lists + [o];
      spawnSystem.OnGameObjectAdded(o);
      collisionSystem.OnGameObjectAdded(o);
      AgreeParts();
      return true;
    }

    /** UniqueId::Issue gives the number `issued`. */
    method SpawnObject(o: GameObject?, issued: int, now: int) returns (ok: bool)
      requires Agree() && issued != 0
      modifies this, spawnSystem, collisionSystem, o
      ensures Agree() && ok == (o != null && o.objectId !in old(gameObjects))
      ensures o != null ==> o.objectId == if old(o.objectId) == 0 then issued else old(o.objectId)
      ensures gameObjects == if ok then old(gameObjects)[o.objectId := o] else old(gameObjects)
      ensures allTickObjects == old(allTickObjects)
      ensures awaitFirstTickObjects == old(awaitFirstTickObjects) + if ok then [o] else []
      ensures ok ==> o.sectionId == sectionId && o.createdTick == now
    {
      if o == null {
        return false;
      }
      assert o.objectId == 0 ==> forall id :: id in gameObjects ==> gameObjects[id] != o;
      if o.objectId == 0 {
        o.objectId := issued;
      }
      ok := AddGameObject(o, now);
    }

    /** The objects in `limbo` are in no tick list. */
    method RemoveGameObject(o: GameObject, ghost limbo: seq<GameObject>) returns (ok: bool)
      requires AgreeBut(limbo)
      modifies this`gameObjects, this`allTickObjects, this`awaitFirstTickObjects, spawnSystem, collisionSystem
      ensures ok == (o.objectId in old(gameObjects))
      ensures gameObjects == old(gameObjects) - {o.objectId}
      ensures AgreeBut(Erase(limbo, o)) <==> !ok || old(gameObjects)[o.objectId] == o
      ensures allTickObjects == if ok then Erase(old(allTickObjects), o) else old(allTickObjects)
      ensures old(awaitFirstTickObjects) == [] ==> awaitFirstTickObjects == []
    {
      assert Erase<GameObject>([], o) == [];
      ok := o.objectId in gameObjects;
      ghost var m, id := gameObjects, o.objectId;
      ghost var lists := allTickObjects + awaitFirstTickObjects + limbo;
      if !ok {
        assert gameObjects - {o.objectId} == gameObjects;
        UnregisteredAbsent(limbo, o);
        return;
      }
      EraseFromOne(allTickObjects, awaitFirstTickObjects, limbo, o);
      ListsRemoved(lists, m, id, o);
      IndexesRemove(m, id, spawnSystem.spawnCounts);
      assert Carry(m - {id});
      hide Erase, Lists, OfKind, WithCollider, CountsRight, Carry;
      gameObjects := gameObjects - {o.objectId};
      var left := Erase(allTickObjects, o);
      if |left| == |allTickObjects| {
        awaitFirstTickObjects := Erase(awaitFirstTickObjects, o);
      }
      allTickObjects := left;
      assert allTickObjects + awaitFirstTickObjects + Erase(limbo, o) == Erase(lists, o);
      spawnSystem.OnGameObjectRemoved(o);
      collisionSystem.OnGameObjectRemoved(o);
    }

    lemma UnregisteredAbsent(limbo: seq<GameObject>, o: GameObject)
      requires AgreeBut(limbo) && o.objectId !in gameObjects
      ensures Erase(limbo, o) == limbo
    {
      assert forall i :: i in gameObjects ==> gameObjects[i].objectId == i;
      assert !Registered(gameObjects, o) && o !in allTickObjects + awaitFirstTickObjects + limbo;
      EraseAbsent(limbo, o);
    }

    method DespawnObject(o: GameObject?, ghost limbo: seq<GameObject>) returns (ok: bool)
      requires AgreeBut(limbo)
      modifies this`gameObjects, this`allTickObjects, this`awaitFirstTickObjects, spawnSystem, collisionSystem
      ensures ok == (o != null && o.objectId in old(gameObjects))
      ensures gameObjects == if ok then old(gameObjects) - {o.objectId} else old(gameObjects)
      ensures o != null ==> (AgreeBut(Erase<GameObject>(limbo, o)) <==> !ok || old(gameObjects)[o.objectId] == o)
      ensures o == null ==> AgreeBut(limbo)
      ensures allTickObjects == if ok then Erase<GameObject>(old(allTickObjects), o) else old(allTickObjects)
      ensures old(awaitFirstTickObjects) == [] ==> awaitFirstTickObjects == []
    {
      if o == null || o.objectId == 0 {
        if o != null { UnregisteredAbsent(limbo, o); }
        return false;
      }
      ok := RemoveGameObject(o, limbo);
    }

    /** The first half of OnTick: the objects are updated, but that the expired ones are set aside. */
    method UpdateObjects(now: int, ghost dead: set<GameObject>)
      requires Agree() && dead == Expired(allTickObjects + awaitFirstTickObjects, now)
      modifies this`allTickObjects, this`awaitFirstTickObjects, this`objectsToDespawn
      ensures AgreeBut(Pick(old(awaitFirstTickObjects), dead)) && Distinct(objectsToDespawn)
      ensures forall o :: o in objectsToDespawn ==> Registered(gameObjects, o)
      ensures objectsToDespawn == Pick(old(allTickObjects), dead) + Pick(old(awaitFirstTickObjects), dead)
      ensures allTickObjects == old(allTickObjects) + Minus(old(awaitFirstTickObjects), dead)
      ensures awaitFirstTickObjects == []
    {
      ghost var all, waiting := allTickObjects, awaitFirstTickObjects;
      assert all + waiting + [] == all + waiting;
      ListsSplit(all, waiting, gameObjects, dead);
      SetAside(all, waiting, dead);
      assert forall o :: o in all + waiting ==> (o in dead <==> o.IsExpired(now));
      assert forall o :: o in all || o in waiting ==> o in all + waiting;
      hide Pick, Minus, OfKind, WithCollider, CountsRight, Carry, Distinct, Lists, Registered, Expired;
      UpdateTicked(now, dead);
      UpdateWaiting(now, dead);
    }

    method UpdateTicked(now: int, ghost dead: set<GameObject>)
      requires objectsToDespawn == []
      requires forall o :: o in allTickObjects ==> (o in dead <==> o.IsExpired(now))
      modifies this`objectsToDespawn
      ensures objectsToDespawn == Pick(allTickObjects, dead)
    {
      NonePicked(dead);
      var k := 0;
      while k < |allTickObjects|
        invariant k <= |allTickObjects| && objectsToDespawn == Pick(allTickObjects[..k], dead)
      {
        var o := allTickObjects[k];
        assert allTickObjects[..k + 1] == allTickObjects[..k] + [o];
        SplitMore(allTickObjects[..k], o, dead);
        if o.IsExpired(now) {
          objectsToDespawn := objectsToDespawn + [o];
        }
        k := k + 1;
      }
      assert allTickObjects[..k] == allTickObjects;
    }

    method UpdateWaiting(now: int, ghost dead: set<GameObject>)
      requires forall o :: o in awaitFirstTickObjects ==> (o in dead <==> o.IsExpired(now))
      modifies this`allTickObjects, this`awaitFirstTickObjects, this`objectsToDespawn
      ensures objectsToDespawn == old(objectsToDespawn) + Pick(old(awaitFirstTickObjects), dead)
      ensures allTickObjects == old(allTickObjects) + Minus(old(awaitFirstTickObjects), dead)
      ensures awaitFirstTickObjects == []
    {
      NonePicked(dead);
      ghost var was, all, waiting := objectsToDespawn, allTickObjects, awaitFirstTickObjects;
      assert was + [] == was && all + [] == all && waiting[..0] == [];
      var k := 0;
      while k < |awaitFirstTickObjects|
        invariant k <= |waiting| && awaitFirstTickObjects == waiting
        invariant objectsToDespawn == was + Pick(waiting[..k], dead)
        invariant allTickObjects == all + Minus(waiting[..k], dead)
      {
        var o := awaitFirstTickObjects[k];
        assert waiting[..k + 1] == waiting[..k] + [o];
        SplitMore(waiting[..k], o, dead);
        if o.IsExpired(now) {
          objectsToDespawn := objectsToDespawn + [o];
        } else {
          allTickObjects := allTickObjects + [o];
        }
        k := k + 1;
      }
      assert waiting[..k] == waiting;
      awaitFirstTickObjects := [];
    }

    /** The second half of OnTick. */
    method DespawnCollected(ghost limbo: seq<GameObject>)
      requires AgreeBut(limbo) && awaitFirstTickObjects == [] && Distinct(objectsToDespawn)
      requires forall o :: o in objectsToDespawn ==> Registered(gameObjects, o)
      requires forall o :: o in limbo ==> o in objectsToDespawn
      modifies this`gameObjects, this`allTickObjects, this`awaitFirstTickObjects, this`objectsToDespawn
      modifies spawnSystem, collisionSystem
      ensures Agree() && awaitFirstTickObjects == []
      ensures Survivors(gameObjects, old(gameObjects), SetOf(old(objectsToDespawn)))
      ensures allTickObjects == Minus(old(allTickObjects), SetOf(old(objectsToDespawn)))
    {
      ghost var doomed, m := objectsToDespawn, gameObjects;
      ghost var gone: set<GameObject> := {};
      MinusNothing(limbo, gone);
      MinusNothing(allTickObjects, gone);
      assert Survivors(gameObjects, m, gone) && doomed[..0] == [];
      hide Minus, Survivors, OfKind, WithCollider, CountsRight, Carry;
      assert forall o :: o in doomed ==> Registered(m, o);
      var j := 0;
      while j < |objectsToDespawn|
        invariant j <= |doomed| && objectsToDespawn == doomed && gone == SetOf(doomed[..j])
        invariant AgreeBut(Minus(limbo, gone)) && awaitFirstTickObjects == []
        invariant Survivors(gameObjects, m, gone)
        invariant allTickObjects == Minus(old(allTickObjects), gone)
      {
        DespawnNext(j, limbo, old(allTickObjects), m, doomed, gone);
        gone := gone + {doomed[j]};
        OneMore(doomed, j);
        j := j + 1;
      }
      assert doomed[..j] == doomed;
      MinusAll(limbo, gone);
      objectsToDespawn := [];
    }

    method DespawnNext(j: nat, ghost limbo: seq<GameObject>, ghost all: seq<GameObject>, ghost m: Objects,
                       ghost doomed: seq<GameObject>, ghost gone: set<GameObject>)
      requires objectsToDespawn == doomed && j < |doomed| && Distinct(doomed) && gone == SetOf(doomed[..j])
      requires AgreeBut(Minus(limbo, gone)) && awaitFirstTickObjects == [] && allTickObjects == Minus(all, gone)
      requires Survivors(gameObjects, m, gone) && Registered(m, doomed[j])
      modifies this`gameObjects, this`allTickObjects, this`awaitFirstTickObjects, spawnSystem, collisionSystem
      ensures var now := gone + {doomed[j]};
        && AgreeBut(Minus(limbo, now)) && awaitFirstTickObjects == [] && allTickObjects == Minus(all, now)
        && Survivors(gameObjects, m, now)
    {
      var o := objectsToDespawn[j];
      DoomedRegistered(m, gone, o, doomed, j);
      EraseMinus(limbo, gone, o);
      EraseMinus(all, gone, o);
      hide Minus, Erase, OfKind, WithCollider, CountsRight, Carry, Lists, Distinct;
      var _ := DespawnObject(o, Minus(limbo, gone));
    }

    lemma DoomedRegistered(m: Objects, gone: set<GameObject>, o: GameObject, doomed: seq<GameObject>, j: nat)
      requires Keyed() && Survivors(gameObjects, m, gone) && Registered(m, o)
      requires Distinct(doomed) && j < |doomed| && doomed[j] == o && gone == SetOf(doomed[..j])
      ensures o.objectId in gameObjects && gameObjects[o.objectId] == o && o !in gone
      ensures forall id :: id in m && m[id] == o ==> id == o.objectId
    {
      var id :| id in m && m[id] == o;
      assert o !in doomed[..j];
      assert id in gameObjects;
    }

    /** At the tick `now`. No object that is expired stays, and no other object goes. */
    method OnTick(now: int)
      requires Agree()
      modifies this, spawnSystem, collisionSystem
      ensures Agree() && awaitFirstTickObjects == []
      ensures var dead := Expired(old(allTickObjects + awaitFirstTickObjects), now);
        && Survivors(gameObjects, old(gameObjects), dead)
        && allTickObjects == Minus(old(allTickObjects + awaitFirstTickObjects), dead)
      ensures forall id :: id in gameObjects <==> id in old(gameObjects) && !old(gameObjects)[id].IsExpired(now)
    {
      ghost var all, waiting, m := allTickObjects, awaitFirstTickObjects, gameObjects;
      ghost var dead := Expired(all + waiting, now);
      AgreeParts();
      SetAside(all, waiting, dead);
      hide Minus, Pick, Distinct, Survivors, Lists, Agree, AgreeBut, Registered;
      UpdateObjects(now, dead);
      DespawnCollected(Pick(waiting, dead));
      assert dead == Expired(all + waiting, now);
      hide Expired;
      SurvivorsNotExpired(gameObjects, m, all + waiting, now);
    }

    /** The first loop of SpawnMany: numbers the objects and registers those whose number is not taken. UniqueId
        gives the k-th object the number issued[k], if it needs one. */
    method RegisterMany(objects: seq<GameObject>, issued: seq<int>)
      returns (batch: seq<GameObject>, ghost es: seq<Entry>, ghost t: seq<Entry>)
      requires Keyed() && |issued| == |objects| && forall k :: 0 <= k < |issued| ==> issued[k] != 0
      modifies this`gameObjects, objects`objectId
      ensures Keyed() && Carry(old(gameObjects)) && ObjectsOf(es) == objects && Numbered(es) && Numbered(t)
      ensures forall o :: o in objects && old(o.objectId) != 0 ==> o.objectId == old(o.objectId)
      ensures forall k :: 0 <= k < |objects| && FirstAt(objects, k) && old(objects[k].objectId) == 0 ==>
        objects[k].objectId == issued[k]
      ensures t == Taken(old(gameObjects), es) && AllNew(old(gameObjects), t)
      ensures batch == ObjectsOf(t)
      ensures (forall o :: o in batch ==> o in objects) && forall e :: e in t ==> e.1 in objects
      ensures gameObjects == AddAll(old(gameObjects), t)
    {
      ghost var m := gameObjects;
      batch, es, t := objects, [], [];
      var i, k := 0, 0;
      RegisterStart(m, objects);
      hide Taken, AddAll, Carry, Registering, EraseAt, ObjectsOf, Numbered;
      RegisterLook(m, objects, es, t, batch, gameObjects);
      assert Numbered([]) by { NoneNumbered(); }
      while i < |batch|
        invariant k == |es| <= |objects| && i == |t| && Registering(m, objects, es, t, batch, gameObjects)
        invariant |t| < |batch| <==> |es| < |objects|
        invariant Numbered(es) && Keyed() && Carry(m)
        invariant forall o :: o in objects && old(o.objectId) != 0 ==> o.objectId == old(o.objectId)
        invariant forall o :: o in objects && o !in objects[..k] ==> o.objectId == old(o.objectId)
        invariant forall j :: 0 <= j < k ==> objects[j].objectId != 0
        invariant forall j :: 0 <= j < k && FirstAt(objects, j) && old(objects[j].objectId) == 0 ==>
          objects[j].objectId == issued[j]
        decreases |objects| - k
      {
        RegisterLook(m, objects, es, t, batch, gameObjects);
        var npc := batch[i];
        ghost var before := gameObjects;
        assert FirstAt(objects, k) ==> npc !in objects[..k];
        assert objects[..k + 1] == objects[..k] + [npc];
        var taken: bool;
        ghost var e: Entry;
        taken, e := RegisterOne(npc, issued[k], m, es);
        RegisterNext(m, objects, es, t, batch, before, e);
        es := es + [e];
        if taken {
          i := i + 1;
          t := t + [e];
        } else {
          batch := EraseAt(batch, i);
        }
        k := k + 1;
        RegisterLook(m, objects, es, t, batch, gameObjects);
      }
      RegisterEnd(m, objects, es, t, batch, gameObjects);
      NumberedPart(es, t);
    }

    /** Numbers an object that has no number, and registers it if its number is free. */
    method RegisterOne(npc: GameObject, issued: int, ghost m: Objects, ghost es: seq<Entry>)
      returns (taken: bool, ghost e: Entry)
      requires issued != 0 && Keyed() && Carry(m) && Numbered(es)
      modifies this`gameObjects, npc`objectId
      ensures npc.objectId == if old(npc.objectId) == 0 then issued else old(npc.objectId)
      ensures e == (npc.objectId, npc) && taken == (e.0 !in old(gameObjects))
      ensures gameObjects == if taken then old(gameObjects)[e.0 := npc] else old(gameObjects)
      ensures Keyed() && Carry(m) && Numbered(es + [e])
    {
      if npc.objectId == 0 {
        npc.objectId := issued;
      }
      e := (npc.objectId, npc);
      taken := npc.objectId !in gameObjects;
      if taken {
        gameObjects := gameObjects[npc.objectId := npc];
      }
    }

    /** The second loop of SpawnMany: the registered objects wait for their first tick. */
    method AwaitFirstTick(batch: seq<GameObject>, now: int, ghost m: Objects, ghost t: seq<Entry>)
      requires batch == ObjectsOf(t) && AllNew(m, t) && Carry(m) && Keyed() && gameObjects == AddAll(m, t)
      requires Numbered(t)
      requires Lists(allTickObjects + awaitFirstTickObjects, m)
      requires collisionSystem.queryableColliders == WithCollider(m)
      modifies this`awaitFirstTickObjects, collisionSystem, batch`sectionId, batch`createdTick
      ensures awaitFirstTickObjects == old(awaitFirstTickObjects) + batch
      ensures Lists(allTickObjects + awaitFirstTickObjects, gameObjects)
      ensures collisionSystem.queryableColliders == WithCollider(gameObjects)
      ensures forall o :: o in batch ==> o.sectionId == sectionId && o.createdTick == now
    {
      NothingAdded(m, map[]);
      ObjectsAt(t);
      hide AddAll, WithCollider, Lists, AllNew, Carry;
      assert t[..0] == [];
      var j := 0;
      while j < |batch|
        invariant j <= |batch| && awaitFirstTickObjects == old(awaitFirstTickObjects) + batch[..j]
        invariant Lists(allTickObjects + awaitFirstTickObjects, AddAll(m, t[..j]))
        invariant collisionSystem.queryableColliders == WithCollider(AddAll(m, t[..j]))
        invariant forall i :: 0 <= i < j ==> batch[i].sectionId == sectionId && batch[i].createdTick == now
      {
        var npc := batch[j];
        NextNew(m, t, j);
        npc.sectionId := sectionId;
        npc.createdTick := now;
        WithColliderAdd(AddAll(m, t[..j]), t[j].0, npc);
        ListsAdd(allTickObjects + awaitFirstTickObjects, AddAll(m, t[..j]), t[j].0, npc);
        ColliderKnown(AddAll(m, t[..j]), t[j].0);
        assert batch[..j + 1] == batch[..j] + [npc];
        assert allTickObjects + awaitFirstTickObjects + [npc] == allTickObjects + (awaitFirstTickObjects + [npc]);
        awaitFirstTickObjects := awaitFirstTickObjects + [npc];
        collisionSystem.OnGameObjectAdded(npc);
        j := j + 1;
      }
      assert batch[..j] == batch && t[..j] == t;
    }

    /** What SpawnMany does after its first loop. */
    method EnterMany(batch: seq<GameObject>, now: int, ghost m: Objects, ghost t: seq<Entry>)
      requires batch == ObjectsOf(t) && AllNew(m, t) && Carry(m) && Keyed() && gameObjects == AddAll(m, t)
      requires Numbered(t) && forall e :: e in t ==> e.1.kind == Npc
      requires Lists(allTickObjects + awaitFirstTickObjects, m)
      requires spawnSystem.npcs == OfKind(m, Npc) && spawnSystem.projectiles == OfKind(m, Projectile)
      requires CountsRight(spawnSystem.spawnCounts, m)
      requires collisionSystem.queryableColliders == WithCollider(m)
      modifies this`awaitFirstTickObjects, spawnSystem, collisionSystem, batch`sectionId, batch`createdTick
      ensures Keyed() && Indexed() && Lists(allTickObjects + awaitFirstTickObjects, gameObjects)
      ensures awaitFirstTickObjects == old(awaitFirstTickObjects) + batch
      ensures forall o :: o in batch ==> o.sectionId == sectionId && o.createdTick == now
    {
      hide Taken, AddAll, Lists, AllNew, WithCollider, OfKind, CountsRight, RaisedAll, Carry;
      BatchAdded(m, t, spawnSystem.spawnCounts);
      AwaitFirstTick(batch, now, m, t);
      if |batch| > 0 {
        var _ := spawnSystem.SpawnNpcsOnSection(batch, t);
      }
    }

    method SpawnMany(objects: seq<GameObject>, issued: seq<int>, now: int) returns (ghost es: seq<Entry>)
      requires Agree() && |issued| == |objects| && forall k :: 0 <= k < |issued| ==> issued[k] != 0
      requires forall o :: o in objects ==> o.kind == Npc
      modifies this, spawnSystem, collisionSystem, objects
      ensures Agree()
      ensures ObjectsOf(es) == objects && Numbered(es)
      ensures forall o :: o in objects && old(o.objectId) != 0 ==> o.objectId == old(o.objectId)
      ensures forall k :: 0 <= k < |objects| && FirstAt(objects, k) && old(objects[k].objectId) == 0 ==>
        objects[k].objectId == issued[k]
      ensures gameObjects == AddAll(old(gameObjects), Taken(old(gameObjects), es))
      ensures awaitFirstTickObjects == old(awaitFirstTickObjects) + ObjectsOf(Taken(old(gameObjects), es))
      ensures forall o :: o in ObjectsOf(Taken(old(gameObjects), es)) ==>
        o.sectionId == sectionId && o.createdTick == now
      ensures allTickObjects == old(allTickObjects)
    {
      AgreeParts();
      hide Taken, AddAll, Lists, AllNew, WithCollider, OfKind, CountsRight, Carry, Agree, ObjectsOf;
      ghost var m := gameObjects;
      var batch: seq<GameObject>;
      ghost var t: seq<Entry>;
      batch, es, t := RegisterMany(objects, issued);
      ObjectsAt(t);
      EnterMany(batch, now, m, t);
      AgreeParts();
    }

    lemma AgreeParts()
      ensures Agree() <==>
        && Keyed() && Indexed() && Lists(allTickObjects + awaitFirstTickObjects, gameObjects)
        && objectsToDespawn == []
    {
      assert allTickObjects + awaitFirstTickObjects + [] == allTickObjects + awaitFirstTickObjects;
    }

    /** Clears everything but the counts; afterwards the containers agree only if no count was left. */
    method OnDestroyed()
      modifies this, spawnSystem, collisionSystem
      ensures gameObjects == map[] && objectsToDespawn == allTickObjects == awaitFirstTickObjects == []
      ensures Agree() <==> forall s :: s > 0 ==> Count(old(spawnSystem.spawnCounts), s) == 0
    {
      gameObjects, objectsToDespawn, allTickObjects, awaitFirstTickObjects := map[], [], [], [];
      spawnSystem.OnSectionDestroyed();
      collisionSystem.OnSectionDestroyed();
      assert forall s :: |LiveNpcs(map[], s)| == 0;
    }
  }

  /** A removal that leaves the containers in disagreement: of an object that carries another one's number. */
  method ImpostorExample() returns (section: Section)
    ensures fresh(section) && !section.Agree()
  {
    section := new Section(1);
    var npc := new GameObject(Npc, false, 0);
    var spawned := section.SpawnObject(npc, 7, 0);
    var impostor := new GameObject(Npc, false, 0);
    impostor.objectId := 7;
    assert section.gameObjects[7] == npc && section.Agree();
    var removed := section.RemoveGameObject(impostor, []);
    assert removed;
  }

  /** A section destroyed while a spawner has a living NPC. */
  method DestroyedExample() returns (section: Section)
    ensures fresh(section) && !section.Agree()
  {
    section := new Section(1);
    var npc := new GameObject(Npc, false, 1);
    var spawned := section.SpawnObject(npc, 7, 0);
    assert LiveNpcs(section.gameObjects, 1) == {7};
    assert Count(section.spawnSystem.spawnCounts, 1) == 1;
    section.OnDestroyed();
  }
}
