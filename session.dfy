/**
 * Properties of the application-area session over the store: what the
 * open/get/create/set operations do in sequence.
 */
module AmiiboSession {
  import opened Common
  import opened AmiiboFile
  import opened AmiiboUuid
  import opened VirtualAmiiboStore

  /** Saving a record and loading its id gives the record back, and keeps the store well formed. */
  lemma LoadAfterSave(files: map<string, VirtualAmiiboFile>, f: VirtualAmiiboFile, now: DateTime)
    requires StoreInvariant(files) && UniqueAreaIds(f.applicationAreas)
    ensures StoreInvariant(files[f.amiiboId := f])
    ensures Loaded(files[f.amiiboId := f], f.amiiboId, now) == f
  {
  }

  /** Loading a known id twice gives the same record, whatever the clock says. */
  lemma LoadIsIdempotent(files: map<string, VirtualAmiiboFile>, amiiboId: string, now1: DateTime, now2: DateTime)
    requires StoreInvariant(files)
    ensures var f := Loaded(files, amiiboId, now1);
      && StoreInvariant(files[amiiboId := f])
      && Loaded(files[amiiboId := f], amiiboId, now2) == f
  {
  }

  /** After the open area's data is replaced, reading the open area gives the new data. */
  lemma SetThenGet(f: VirtualAmiiboFile, openedId: uint32, data: seq<byte>)
    requires HasArea(f.applicationAreas, openedId)
    ensures OpenAreaData(f.(applicationAreas := ReplaceArea(f.applicationAreas, openedId, data)), openedId) == data
  {
    FindAfterReplace(f.applicationAreas, openedId, data);
  }

  /** Setting the same data twice: the second set changes nothing and is not written. */
  lemma SecondSetIsSkipped(areas: seq<ApplicationArea>, openedId: uint32, data: seq<byte>)
    requires HasArea(areas, openedId)
    ensures var once := ReplaceArea(areas, openedId, data);
      && ReplaceArea(once, openedId, data) == once
      && FindArea(once, openedId) == Some(data)
  {
    FindAfterReplace(areas, openedId, data);
    ReplaceWithSameData(ReplaceArea(areas, openedId, data), openedId, data);
  }

  /** Reading the open area gives nothing when no area has the open id, and otherwise the data of that area. */
  lemma OpenAreaDataSpec(f: VirtualAmiiboFile, openedId: uint32)
    requires UniqueAreaIds(f.applicationAreas)
    ensures !HasArea(f.applicationAreas, openedId) ==> OpenAreaData(f, openedId) == []
    ensures forall i :: (0 <= i < |f.applicationAreas| && f.applicationAreas[i].applicationAreaId == openedId)
                        ==> OpenAreaData(f, openedId) == f.applicationAreas[i].applicationArea
  {
    FindAreaSpec(f.applicationAreas, openedId);
    forall i | 0 <= i < |f.applicationAreas| && f.applicationAreas[i].applicationAreaId == openedId
      ensures OpenAreaData(f, openedId) == f.applicationAreas[i].applicationArea
    {
      FindAreaAt(f.applicationAreas, i);
    }
  }

  /** GenerateUuid twice without a random UUID: the second call returns the first call's UUID and writes nothing. */
  method GenerateUuidTwice(store: VirtualAmiibo, amiiboId: string, random1: seq<byte>, random2: seq<byte>,
                           now1: DateTime, now2: DateTime)
    returns (uuid1: seq<byte>, uuid2: seq<byte>)
    requires store.Valid() && |random1| == UuidLength && |random2| == UuidLength
    modifies store
    ensures store.Valid()
    ensures uuid1 == uuid2
    ensures amiiboId !in old(store.files) ==> uuid1 == WithChecksums(random1) && HasValidChecksums(uuid1)
    ensures amiiboId in store.files && store.files[amiiboId].tagUuid == uuid1
    ensures var f := Loaded(old(store.files), amiiboId, now1);
      && store.files == old(store.files)[amiiboId := f.(tagUuid := uuid1)]
      && store.saveCount == old(store.saveCount) + (if amiiboId in old(store.files) then 0 else 1)
                                                 + (if f.tagUuid == [] then 1 else 0)
  {
    uuid1 := store.GenerateUuid(amiiboId, false, random1, now1);
    assert uuid1 != [] by {
      assert |WithChecksums(random1)| == UuidLength;
    }
    ghost var saves := store.saveCount;
    ghost var files := store.files;
    uuid2 := store.GenerateUuid(amiiboId, false, random2, now2);
    assert store.saveCount == saves && store.files == files;
  }

  /** Creating the same area twice: the second create fails and leaves the record as the first left it. */
  method CreateAreaTwice(store: VirtualAmiibo, amiiboId: string, areaId: uint32,
                         data1: seq<byte>, data2: seq<byte>, now: DateTime)
    returns (ok1: bool, ok2: bool)
    requires store.Valid()
    modifies store
    ensures store.Valid()
    ensures !ok2
    ensures amiiboId in store.files
    ensures var l := Loaded(old(store.files), amiiboId, now).applicationAreas;
      store.files[amiiboId].applicationAreas == (if ok1 then l + [ApplicationArea(areaId, data1)] else l)
  {
    ok1 := store.CreateApplicationArea(amiiboId, areaId, data1, now);
    ghost var after := store.files[amiiboId];
    if ok1 {
      assert after.applicationAreas[|after.applicationAreas| - 1].applicationAreaId == areaId;
    } else {
      assert HasArea(after.applicationAreas, areaId);
    }
    ok2 := store.CreateApplicationArea(amiiboId, areaId, data2, now);
  }

  /** Open, set, get: once the open succeeds, reading the area returns exactly what was set. */
  method OpenSetGet(store: VirtualAmiibo, amiiboId: string, areaId: uint32, data: seq<byte>, now: DateTime)
    returns (ok: bool, read: seq<byte>)
    requires store.Valid()
    modifies store
    ensures store.Valid()
    ensures ok == HasArea(Loaded(old(store.files), amiiboId, now).applicationAreas, areaId)
    ensures ok ==> read == data
  {
    ok := store.OpenApplicationArea(amiiboId, areaId, now);
    store.SetApplicationArea(amiiboId, data, now);
    if ok {
      ghost var f := Loaded(old(store.files), amiiboId, now);
      SetThenGet(f, areaId, data);
    }
    read := store.GetApplicationArea(amiiboId, now);
  }

  /** Setting the same data twice writes the record at most once and leaves it as one set does. */
  method SetTwice(store: VirtualAmiibo, amiiboId: string, data: seq<byte>, now: DateTime)
    requires store.Valid()
    modifies store
    ensures store.Valid()
    ensures store.saveCount <= old(store.saveCount) + 1
    ensures var f := Loaded(old(store.files), amiiboId, now);
      store.files == old(store.files)[amiiboId :=
        f.(applicationAreas := ReplaceArea(f.applicationAreas, old(store.openedApplicationAreaId), data))]
  {
    store.SetApplicationArea(amiiboId, data, now);
    ghost var f := Loaded(old(store.files), amiiboId, now);
    ghost var id := store.openedApplicationAreaId;
    FindAreaSpec(f.applicationAreas, id);
    if HasArea(f.applicationAreas, id) {
      SecondSetIsSkipped(f.applicationAreas, id, data);
    } else {
      ReplaceAreaMissing(f.applicationAreas, id, data);
    }
    store.SetApplicationArea(amiiboId, data, now);
  }

  /** A first look at an unknown id: opening a missing area fails and reading the open area gives no bytes. */
  method OpenMissingOnNewAmiibo(store: VirtualAmiibo, amiiboId: string, areaId: uint32, now: DateTime)
    returns (ok: bool, read: seq<byte>)
    requires store.Valid() && amiiboId !in store.files
    modifies store
    ensures store.Valid()
    ensures !ok && read == []
    ensures amiiboId in store.files && store.files[amiiboId] == DefaultFile(amiiboId, now)
  {
    ok := store.OpenApplicationArea(amiiboId, areaId, now);
    read := store.GetApplicationArea(amiiboId, now);
  }
}
