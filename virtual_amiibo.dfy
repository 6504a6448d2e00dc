/**
 * The virtual amiibo store and session: one record per amiibo id in the
 * amiibo directory, and the single process-wide "opened application area id"
 * that the open/get/set operations address.
 */
module VirtualAmiiboStore {
  import opened Common
  import opened AmiiboFile
  import opened AmiiboUuid

  /** Every record is stored under its own AmiiboId and has unique area ids. */
  predicate StoreInvariant(files: map<string, VirtualAmiiboFile>)
  {
    forall id :: id in files ==> files[id].amiiboId == id && UniqueAreaIds(files[id].applicationAreas)
  }

  /** The record LoadAmiiboFile returns: the stored one, or a fresh default one. */
  function Loaded(files: map<string, VirtualAmiiboFile>, amiiboId: string, now: DateTime): (f: VirtualAmiiboFile)
    requires StoreInvariant(files)
    ensures f.amiiboId == amiiboId && UniqueAreaIds(f.applicationAreas)
    ensures amiiboId !in files ==> f.tagUuid == [] && f.applicationAreas == [] && f.writeCounter == 0
  {
    if amiiboId in files then files[amiiboId] else DefaultFile(amiiboId, now)
  }

  /** The bytes GetApplicationArea returns: the open area's data, or nothing. */
  function OpenAreaData(f: VirtualAmiiboFile, openedId: uint32): (data: seq<byte>)
  {
    match FindArea(f.applicationAreas, openedId)
    case Some(d) => d
    case None => []
  }

  /** The part of the NFP CommonInfo structure that comes from the record. */
  datatype CommonInfo = CommonInfo(
    lastWriteYear: uint16, lastWriteMonth: uint8, lastWriteDay: uint8,
    writeCounter: uint16, version: uint8, applicationAreaSize: uint32)

  /** GetCommonInfo's field mapping; the area size is a constant defined outside this model. */
  function CommonInfoOf(f: VirtualAmiiboFile, applicationAreaSize: uint32): (info: CommonInfo)
    ensures info.writeCounter == f.writeCounter && info.version == 1
    ensures info.applicationAreaSize == applicationAreaSize
    ensures 1 <= f.lastWriteDate.year < 0x1_0000 ==> info.lastWriteYear == f.lastWriteDate.year
    ensures 1 <= f.lastWriteDate.month <= 12 ==> info.lastWriteMonth == f.lastWriteDate.month
    ensures 1 <= f.lastWriteDate.day <= 31 ==> info.lastWriteDay == f.lastWriteDate.day
  {
    CommonInfo(ToUInt16(f.lastWriteDate.year), ToUInt8(f.lastWriteDate.month), ToUInt8(f.lastWriteDate.day),
               f.writeCounter, 1, applicationAreaSize)
  }

  /** The part of the NFP RegisterInfo structure that comes from the record. */
  datatype RegisterInfo = RegisterInfo(
    firstWriteYear: uint16, firstWriteMonth: uint8, firstWriteDay: uint8,
    fontRegion: uint8, amiiboName: string)

  /** A record whose null name has been replaced by the default name. */
  function WithDefaultName(f: VirtualAmiiboFile): (g: VirtualAmiiboFile)
    ensures g.name.Some? && (f.name.Some? ==> g == f)
    ensures f.name.None? ==> g == f.(name := Some(DefaultName))
  {
    if f.name.None? then f.(name := Some(DefaultName)) else f
  }

  /** GetRegisterInfo's field mapping, for a record whose name is set. */
  function RegisterInfoOf(f: VirtualAmiiboFile): (info: RegisterInfo)
    requires f.name.Some?
    ensures info.amiiboName == f.name.value && info.fontRegion == 0
    ensures 1 <= f.firstWriteDate.year < 0x1_0000 ==> info.firstWriteYear == f.firstWriteDate.year
    ensures 1 <= f.firstWriteDate.month <= 12 ==> info.firstWriteMonth == f.firstWriteDate.month
    ensures 1 <= f.firstWriteDate.day <= 31 ==> info.firstWriteDay == f.firstWriteDate.day
  {
    RegisterInfo(ToUInt16(f.firstWriteDate.year), ToUInt8(f.firstWriteDate.month), ToUInt8(f.firstWriteDate.day),
                 0, f.name.value)
  }

  /** The fields of a decrypted tag dump that the import reads. */
  datatype AmiiboDump = AmiiboDump(
    statueId: string, gameSeriesId: int, ntagSerial: seq<byte>,
    nickname: string, setupDate: DateTime, writeCounter: uint16, appData: seq<byte>)

  /** The record the import creates for an amiibo id that has no record yet. */
  function ImportedFile(dump: AmiiboDump, now: DateTime): (f: VirtualAmiiboFile)
    ensures f.amiiboId == dump.statueId && f.fileVersion == 0
    ensures f.tagUuid == dump.ntagSerial && f.name == Some(dump.nickname)
    ensures f.firstWriteDate == dump.setupDate && f.writeCounter == dump.writeCounter
    ensures f.applicationAreas == [ApplicationArea(ToUInt32(dump.gameSeriesId), dump.appData)]
  {
    NewFile(dump.statueId, 0, Some(dump.nickname), Some(dump.ntagSerial), Some(dump.setupDate),
            dump.writeCounter, ToUInt32(dump.gameSeriesId), Some(dump.appData), now)
  }

  /** The store: the amiibo directory, the opened area id, and a count of file writes. */
  class VirtualAmiibo {
    /** The amiibo directory: `<AmiiboId>.json` for every key. */
    var files: map<string, VirtualAmiiboFile>
    /** The static `_openedApplicationAreaId`. */
    var openedApplicationAreaId: uint32
    /** How many times a record has been written to the directory. */
    ghost var saveCount: nat

    ghost predicate Valid()
      reads this
    {
      StoreInvariant(files)
    }

    /** A store over an existing directory; the static open id starts at 0. */
    constructor (disk: map<string, VirtualAmiiboFile>)
      requires StoreInvariant(disk)
      ensures Valid() && files == disk && openedApplicationAreaId == 0 && saveCount == 0
    {
      files := disk;
      openedApplicationAreaId := 0;
      saveCount := 0;
    }

    /** SaveAmiiboFile: overwrite the record stored under its own id. */
    method SaveAmiiboFile(f: VirtualAmiiboFile)
      requires Valid() && UniqueAreaIds(f.applicationAreas)
      modifies this
      ensures Valid()
      ensures files == old(files)[f.amiiboId := f]
      ensures openedApplicationAreaId == old(openedApplicationAreaId)
      ensures saveCount == old(saveCount) + 1
    {
      files := files[f.amiiboId := f];
      saveCount := saveCount + 1;
    }

    /** CreateAmiiboJSON: build a record from the (possibly null) arguments and save it. */
    method CreateAmiiboJSON(amiiboId: string, fileVersion: uint32, amiiboName: Option<string>,
                            tagUuid: Option<seq<byte>>, firstWriteDate: Option<DateTime>,
                            writeCounter: uint16, applicationAreaId: uint32,
                            applicationArea: Option<seq<byte>>, now: DateTime)
      returns (f: VirtualAmiiboFile)
      requires Valid()
      modifies this
      ensures Valid()
      ensures f == NewFile(amiiboId, fileVersion, amiiboName, tagUuid, firstWriteDate,
                           writeCounter, applicationAreaId, applicationArea, now)
      ensures files == old(files)[amiiboId := f]
      ensures openedApplicationAreaId == old(openedApplicationAreaId)
      ensures saveCount == old(saveCount) + 1
    {
      var uuid: seq<byte> := if tagUuid.None? then [] else tagUuid.value;
      var first := if firstWriteDate.None? then now else firstWriteDate.value;
      f := VirtualAmiiboFile(fileVersion, amiiboName, uuid, amiiboId, first, now, writeCounter, []);
      if applicationArea.Some? {
        f := f.(applicationAreas := f.applicationAreas + [ApplicationArea(applicationAreaId, applicationArea.value)]);
      }
      SaveAmiiboFile(f);
    }

    /** LoadAmiiboFile: the stored record, or a default one created and saved on the spot. */
    method LoadAmiiboFile(amiiboId: string, now: DateTime) returns (f: VirtualAmiiboFile)
      requires Valid()
      modifies this
      ensures Valid()
      ensures f == Loaded(old(files), amiiboId, now)
      ensures files == old(files)[amiiboId := f]
      ensures openedApplicationAreaId == old(openedApplicationAreaId)
      ensures saveCount == old(saveCount) + (if amiiboId in old(files) then 0 else 1)
    {
      if amiiboId in files {
        f := files[amiiboId];
      } else {
        f := CreateAmiiboJSON(amiiboId, 0, Some(DefaultName), None, None, 0, 0, None, now);
      }
    }

    /**
     * GenerateUuid: a random UUID when asked for one; otherwise the stored
     * UUID, first generated and saved if the record has none.
     */
    method GenerateUuid(amiiboId: string, useRandomUuid: bool, randomBytes: seq<byte>, now: DateTime)
      returns (uuid: seq<byte>)
      requires Valid() && |randomBytes| == UuidLength
      modifies this
      ensures Valid()
      ensures openedApplicationAreaId == old(openedApplicationAreaId)
      ensures useRandomUuid ==>
        uuid == WithChecksums(randomBytes) && files == old(files) && saveCount == old(saveCount)
      ensures !useRandomUuid ==>
        var f := Loaded(old(files), amiiboId, now);
        && uuid == (if f.tagUuid == [] then WithChecksums(randomBytes) else f.tagUuid)
        && files == old(files)[amiiboId := f.(tagUuid := uuid)]
        && saveCount == old(saveCount) + (if amiiboId in old(files) then 0 else 1)
                                       + (if f.tagUuid == [] then 1 else 0)
    {
      if useRandomUuid {
        uuid := GenerateRandomUuid(randomBytes);
        return;
      }
      var f := LoadAmiiboFile(amiiboId, now);
      if |f.tagUuid| == 0 {
        var newUuid := GenerateRandomUuid(randomBytes);
        f := f.(tagUuid := newUuid);
        SaveAmiiboFile(f);
      }
      uuid := f.tagUuid;
    }

    /** GetCommonInfo: load the record and map its fields. */
    method GetCommonInfo(amiiboId: string, applicationAreaSize: uint32, now: DateTime) returns (info: CommonInfo)
      requires Valid()
      modifies this
      ensures Valid()
      ensures info == CommonInfoOf(Loaded(old(files), amiiboId, now), applicationAreaSize)
      ensures files == old(files)[amiiboId := Loaded(old(files), amiiboId, now)]
      ensures openedApplicationAreaId == old(openedApplicationAreaId)
      ensures saveCount == old(saveCount) + (if amiiboId in old(files) then 0 else 1)
    {
      var f := LoadAmiiboFile(amiiboId, now);
      info := CommonInfoOf(f, applicationAreaSize);
    }

    /** GetRegisterInfo, the record part: a null name becomes the default name and is saved. */
    method GetRegisterInfo(amiiboId: string, now: DateTime) returns (info: RegisterInfo)
      requires Valid()
      modifies this
      ensures Valid()
      ensures var f := Loaded(old(files), amiiboId, now);
        && info == RegisterInfoOf(WithDefaultName(f))
        && files == old(files)[amiiboId := WithDefaultName(f)]
        && saveCount == old(saveCount) + (if amiiboId in old(files) then 0 else 1)
                                       + (if f.name.None? then 1 else 0)
      ensures openedApplicationAreaId == old(openedApplicationAreaId)
    {
      var f := LoadAmiiboFile(amiiboId, now);
      if f.name.None? {
        f := f.(name := Some(DefaultName));
        SaveAmiiboFile(f);
      }
      info := RegisterInfoOf(f);
    }

    /** OpenApplicationArea: open the area if the record has it; otherwise keep the open id. */
    method OpenApplicationArea(amiiboId: string, applicationAreaId: uint32, now: DateTime) returns (ok: bool)
      requires Valid()
      modifies this
      ensures Valid()
      ensures var f := Loaded(old(files), amiiboId, now);
        && ok == HasArea(f.applicationAreas, applicationAreaId)
        && files == old(files)[amiiboId := f]
      ensures openedApplicationAreaId == if ok then applicationAreaId else old(openedApplicationAreaId)
      ensures saveCount == old(saveCount) + (if amiiboId in old(files) then 0 else 1)
    {
      var f := LoadAmiiboFile(amiiboId, now);
      if HasArea(f.applicationAreas, applicationAreaId) {
        openedApplicationAreaId := applicationAreaId;
        return true;
      }
      return false;
    }

    /** GetApplicationArea: the data of the first area whose id is the open id, or no bytes. */
    method GetApplicationArea(amiiboId: string, now: DateTime) returns (data: seq<byte>)
      requires Valid()
      modifies this
      ensures Valid()
      ensures data == OpenAreaData(Loaded(old(files), amiiboId, now), old(openedApplicationAreaId))
      ensures files == old(files)[amiiboId := Loaded(old(files), amiiboId, now)]
      ensures openedApplicationAreaId == old(openedApplicationAreaId)
      ensures saveCount == old(saveCount) + (if amiiboId in old(files) then 0 else 1)
    {
      var f := LoadAmiiboFile(amiiboId, now);
      var areas := f.applicationAreas;
      var i := 0;
      while i < |areas|
        invariant 0 <= i <= |areas|
        invariant FindArea(areas, openedApplicationAreaId) == FindArea(areas[i..], openedApplicationAreaId)
      {
        if areas[i].applicationAreaId == openedApplicationAreaId {
          return areas[i].applicationArea;
        }
        assert areas[i..][1..] == areas[i + 1..];
        i := i + 1;
      }
      return [];
    }

    /** CreateApplicationArea: append a new area unless one with the id exists. */
    method CreateApplicationArea(amiiboId: string, applicationAreaId: uint32, applicationAreaData: seq<byte>, now: DateTime)
      returns (ok: bool)
      requires Valid()
      modifies this
      ensures Valid()
      ensures var f := Loaded(old(files), amiiboId, now);
        && ok == !HasArea(f.applicationAreas, applicationAreaId)
        && files == old(files)[amiiboId :=
             if ok then f.(applicationAreas := f.applicationAreas + [ApplicationArea(applicationAreaId, applicationAreaData)])
             else f]
        && saveCount == old(saveCount) + (if amiiboId in old(files) then 0 else 1) + (if ok then 1 else 0)
      ensures openedApplicationAreaId == old(openedApplicationAreaId)
    {
      var f := LoadAmiiboFile(amiiboId, now);
      if HasArea(f.applicationAreas, applicationAreaId) {
        return false;
      }
      AppendArea(f.applicationAreas, applicationAreaId, applicationAreaData);
      f := f.(applicationAreas := f.applicationAreas + [ApplicationArea(applicationAreaId, applicationAreaData)]);
      SaveAmiiboFile(f);
      return true;
    }

    /** SetAmiiboName: replace the name and save. */
    method SetAmiiboName(amiiboId: string, amiiboName: Option<string>, now: DateTime)
      requires Valid()
      modifies this
      ensures Valid()
      ensures files == old(files)[amiiboId := Loaded(old(files), amiiboId, now).(name := amiiboName)]
      ensures openedApplicationAreaId == old(openedApplicationAreaId)
      ensures saveCount == old(saveCount) + (if amiiboId in old(files) then 0 else 1) + 1
    {
      var f := LoadAmiiboFile(amiiboId, now);
      f := f.(name := amiiboName);
      SaveAmiiboFile(f);
    }

    /**
     * SetApplicationArea: replace the data of the open area, saving only when
     * the bytes differ; nothing happens when no area has the open id.
     */
    method SetApplicationArea(amiiboId: string, applicationAreaData: seq<byte>, now: DateTime)
      requires Valid()
      modifies this
      ensures Valid()
      ensures var f := Loaded(old(files), amiiboId, now);
        && files == old(files)[amiiboId :=
             f.(applicationAreas := ReplaceArea(f.applicationAreas, old(openedApplicationAreaId), applicationAreaData))]
        && saveCount == old(saveCount) + (if amiiboId in old(files) then 0 else 1)
             + (if FindArea(f.applicationAreas, old(openedApplicationAreaId)).Some?
                   && FindArea(f.applicationAreas, old(openedApplicationAreaId)).value != applicationAreaData
                then 1 else 0)
      ensures openedApplicationAreaId == old(openedApplicationAreaId)
    {
      var f := LoadAmiiboFile(amiiboId, now);
      ghost var f0 := f;
      ghost var saves0 := saveCount;
      var id := openedApplicationAreaId;
      FindAreaSpec(f.applicationAreas, id);
      if !HasArea(f.applicationAreas, id) {
        ReplaceAreaMissing(f.applicationAreas, id, applicationAreaData);
        return;
      }
      var i := 0;
      while i < |f.applicationAreas|
        invariant 0 <= i <= |f.applicationAreas| && f == f0 && saveCount == saves0
        invariant forall k :: 0 <= k < i ==> f.applicationAreas[k].applicationAreaId != id
        invariant files == old(files)[amiiboId := f0] && openedApplicationAreaId == id
      {
        if f.applicationAreas[i].applicationAreaId == id {
          ReplaceAreaAt(f.applicationAreas, id, applicationAreaData, i);
          FindAreaAt(f.applicationAreas, i);
          if f.applicationAreas[i].applicationArea != applicationAreaData {
            f := f.(applicationAreas := f.applicationAreas[i := ApplicationArea(id, applicationAreaData)]);
            ReplaceAreaKeepsIds(f0.applicationAreas, id, applicationAreaData);
            SaveAmiiboFile(f);
          } else {
            ReplaceWithSameData(f.applicationAreas, id, applicationAreaData);
          }
          break;
        }
        i := i + 1;
      }
    }

    /** LoadAmiiboFromBin's overwrite of a known record: the open area's data and the name, as two saves. */
    method OverwriteFromDump(amiiboId: string, appData: seq<byte>, nickname: string, now: DateTime)
      requires Valid() && amiiboId in files
      modifies this
      ensures Valid()
      ensures var f := old(files)[amiiboId];
        && files == old(files)[amiiboId :=
             f.(applicationAreas := ReplaceArea(f.applicationAreas, old(openedApplicationAreaId), appData),
                name := Some(nickname))]
        && saveCount == old(saveCount) + 1
             + (if FindArea(f.applicationAreas, old(openedApplicationAreaId)).Some?
                   && FindArea(f.applicationAreas, old(openedApplicationAreaId)).value != appData
                then 1 else 0)
      ensures openedApplicationAreaId == old(openedApplicationAreaId)
    {
      SetApplicationArea(amiiboId, appData, now);
      SetAmiiboName(amiiboId, Some(nickname), now);
    }

    /** LoadAmiiboFromBin for an amiibo id that has a record: open the area, take the UUID, overwrite if it differs. */
    method ImportIntoKnown(dump: AmiiboDump, randomizeUid: bool, randomBytes: seq<byte>, now: DateTime)
      requires Valid() && |randomBytes| == UuidLength && dump.statueId in files
      modifies this
      ensures Valid()
      ensures var f0 := old(files)[dump.statueId];
        var areaId := ToUInt32(dump.gameSeriesId);
        var openId := if HasArea(f0.applicationAreas, areaId) then areaId else old(openedApplicationAreaId);
        var f1 := if !randomizeUid && f0.tagUuid == [] then f0.(tagUuid := WithChecksums(randomBytes)) else f0;
        var uuid := if randomizeUid then WithChecksums(randomBytes) else f1.tagUuid;
        && openedApplicationAreaId == openId
        && files == old(files)[dump.statueId :=
             if uuid == dump.ntagSerial then f1
             else f1.(applicationAreas := ReplaceArea(f1.applicationAreas, openId, dump.appData),
                      name := Some(dump.nickname))]
        && saveCount == old(saveCount)
             + (if !randomizeUid && f0.tagUuid == [] then 1 else 0)
             + (if uuid == dump.ntagSerial then 0
                else (if FindArea(f1.applicationAreas, openId).Some?
                         && FindArea(f1.applicationAreas, openId).value != dump.appData
                      then 1 else 0) + 1)
    {
      ghost var f0 := files[dump.statueId];
      var _ := OpenApplicationArea(dump.statueId, ToUInt32(dump.gameSeriesId), now);
      assert files == old(files) && saveCount == old(saveCount);
      var uuid := GenerateUuid(dump.statueId, randomizeUid, randomBytes, now);
      ghost var f1 := if !randomizeUid && f0.tagUuid == [] then f0.(tagUuid := WithChecksums(randomBytes)) else f0;
      assert files == old(files)[dump.statueId := f1];
      if uuid != dump.ntagSerial {
        OverwriteFromDump(dump.statueId, dump.appData, dump.nickname, now);
      }
    }

    /**
     * LoadAmiiboFromBin, after decryption: with no valid key, nothing; for a
     * new amiibo id, a record seeded from the dump; for a known one, the area
     * data and name overwritten from the dump when the UUID differs from the
     * dump's serial.
     */
    method LoadAmiiboFromBin(keyValid: bool, dump: AmiiboDump, randomizeUid: bool,
                             randomBytes: seq<byte>, now: DateTime)
      returns (statueId: Option<string>)
      requires Valid() && |randomBytes| == UuidLength
      modifies this
      ensures Valid()
      ensures !keyValid ==>
        && statueId == None && files == old(files)
        && openedApplicationAreaId == old(openedApplicationAreaId) && saveCount == old(saveCount)
      ensures keyValid ==> statueId == Some(dump.statueId)
      ensures keyValid && dump.statueId !in old(files) ==>
        && files == old(files)[dump.statueId := ImportedFile(dump, now)]
        && openedApplicationAreaId == old(openedApplicationAreaId)
        && saveCount == old(saveCount) + 1
      ensures keyValid && dump.statueId in old(files) ==>
        var f0 := old(files)[dump.statueId];
        var areaId := ToUInt32(dump.gameSeriesId);
        var openId := if HasArea(f0.applicationAreas, areaId) then areaId else old(openedApplicationAreaId);
        var f1 := if !randomizeUid && f0.tagUuid == [] then f0.(tagUuid := WithChecksums(randomBytes)) else f0;
        var uuid := if randomizeUid then WithChecksums(randomBytes) else f1.tagUuid;
        && openedApplicationAreaId == openId
        && files == old(files)[dump.statueId :=
             if uuid == dump.ntagSerial then f1
             else f1.(applicationAreas := ReplaceArea(f1.applicationAreas, openId, dump.appData),
                      name := Some(dump.nickname))]
        && saveCount == old(saveCount)
             + (if !randomizeUid && f0.tagUuid == [] then 1 else 0)
             + (if uuid == dump.ntagSerial then 0
                else (if FindArea(f1.applicationAreas, openId).Some?
                         && FindArea(f1.applicationAreas, openId).value != dump.appData
                      then 1 else 0) + 1)
    {
      if !keyValid {
        return None;
      }
      var appData := dump.appData;
      if dump.statueId in files {
        ImportIntoKnown(dump, randomizeUid, randomBytes, now);
      } else {
        var _ := CreateAmiiboJSON(dump.statueId, 0, Some(dump.nickname), Some(dump.ntagSerial),
                                  Some(dump.setupDate), dump.writeCounter, ToUInt32(dump.gameSeriesId),
                                  Some(appData), now);
        if randomizeUid {
          var _ := GenerateUuid(dump.statueId, randomizeUid, randomBytes, now);
        }
      }
      return Some(dump.statueId);
    }
  }
}
