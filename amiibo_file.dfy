/**
 * The persisted record of one virtual amiibo (VirtualAmiiboFile) and the
 * pure operations on its list of application areas.
 */
module AmiiboFile {
  import opened Common

  /** A point in time as the record stores it; the calendar fields are what the record's readers use. */
  datatype DateTime = DateTime(year: int, month: int, day: int, timeOfDay: nat)

  /** One application area: the id a game registered and the bytes it stores there. */
  datatype ApplicationArea = ApplicationArea(applicationAreaId: uint32, applicationArea: seq<byte>)

  /** The record saved as `<AmiiboId>.json`; `name` may be null in a stored file. */
  datatype VirtualAmiiboFile = VirtualAmiiboFile(
    fileVersion: uint32,
    name: Option<string>,
    tagUuid: seq<byte>,
    amiiboId: string,
    firstWriteDate: DateTime,
    lastWriteDate: DateTime,
    writeCounter: uint16,
    applicationAreas: seq<ApplicationArea>)

  /** The name a record gets when none is given. */
  const DefaultName := "Ryujinx"

  /** No two areas of the list share an id. */
  predicate UniqueAreaIds(areas: seq<ApplicationArea>)
  {
    forall i, j :: 0 <= i < j < |areas| ==> areas[i].applicationAreaId != areas[j].applicationAreaId
  }

  /** `ApplicationAreas.Any(item => item.ApplicationAreaId == id)`. */
  predicate HasArea(areas: seq<ApplicationArea>, id: uint32)
  {
    exists i :: 0 <= i < |areas| && areas[i].applicationAreaId == id
  }

  /** The data of the first area with the given id, scanning in list order. */
  function FindArea(areas: seq<ApplicationArea>, id: uint32): (r: Option<seq<byte>>)
    decreases |areas|
  {
    if areas == [] then None
    else if areas[0].applicationAreaId == id then Some(areas[0].applicationArea)
    else FindArea(areas[1..], id)
  }

  /** The list with the data of the first area with the given id replaced; the list itself when there is none. */
  function ReplaceArea(areas: seq<ApplicationArea>, id: uint32, data: seq<byte>): (r: seq<ApplicationArea>)
    ensures |r| == |areas|
    decreases |areas|
  {
    if areas == [] then []
    else if areas[0].applicationAreaId == id then [ApplicationArea(id, data)] + areas[1..]
    else [areas[0]] + ReplaceArea(areas[1..], id, data)
  }

  /** The ids of the areas, in list order. */
  function AreaIds(areas: seq<ApplicationArea>): (r: seq<uint32>)
    ensures |r| == |areas|
    ensures forall k :: 0 <= k < |areas| ==> r[k] == areas[k].applicationAreaId
  {
    seq(|areas|, k requires 0 <= k < |areas| => areas[k].applicationAreaId)
  }

  /** The record CreateAmiiboJSON builds; absent arguments are C# nulls. */
  function NewFile(amiiboId: string, fileVersion: uint32, amiiboName: Option<string>,
                   tagUuid: Option<seq<byte>>, firstWriteDate: Option<DateTime>,
                   writeCounter: uint16, applicationAreaId: uint32,
                   applicationArea: Option<seq<byte>>, now: DateTime): (f: VirtualAmiiboFile)
    ensures f.amiiboId == amiiboId && f.fileVersion == fileVersion && f.name == amiiboName
    ensures f.writeCounter == writeCounter && f.lastWriteDate == now
    ensures f.firstWriteDate == (if firstWriteDate.Some? then firstWriteDate.value else now)
    ensures f.tagUuid == (if tagUuid.Some? then tagUuid.value else [])
    ensures |f.applicationAreas| <= 1 && UniqueAreaIds(f.applicationAreas)
    ensures applicationArea.None? <==> f.applicationAreas == []
    ensures applicationArea.Some? ==> FindArea(f.applicationAreas, applicationAreaId) == applicationArea
  {
    VirtualAmiiboFile(
      fileVersion, amiiboName,
      if tagUuid.Some? then tagUuid.value else [],
      amiiboId,
      if firstWriteDate.Some? then firstWriteDate.value else now,
      now, writeCounter,
      if applicationArea.Some? then [ApplicationArea(applicationAreaId, applicationArea.value)] else [])
  }

  /** The record LoadAmiiboFile creates for an id it has never seen. */
  function DefaultFile(amiiboId: string, now: DateTime): (f: VirtualAmiiboFile)
    ensures f.amiiboId == amiiboId && f.fileVersion == 0 && f.name == Some(DefaultName)
    ensures f.tagUuid == [] && f.writeCounter == 0 && f.applicationAreas == []
    ensures f.firstWriteDate == now && f.lastWriteDate == now
  {
    NewFile(amiiboId, 0, Some(DefaultName), None, None, 0, 0, None, now)
  }

  // ----- Lemmas about the area list -----

  /** FindArea finds something exactly when some area has the id, and what it finds is that area's data. */
  lemma {:induction false} FindAreaSpec(areas: seq<ApplicationArea>, id: uint32)
    ensures FindArea(areas, id).Some? <==> HasArea(areas, id)
    ensures FindArea(areas, id).Some? ==>
      exists i :: 0 <= i < |areas| && areas[i] == ApplicationArea(id, FindArea(areas, id).value)
    decreases |areas|
  {
    if areas != [] && areas[0].applicationAreaId != id {
      FindAreaSpec(areas[1..], id);
      if HasArea(areas, id) {
        var i :| 0 <= i < |areas| && areas[i].applicationAreaId == id;
        assert areas[1..][i - 1].applicationAreaId == id;
      }
      if FindArea(areas, id).Some? {
        var i :| 0 <= i < |areas[1..]| && areas[1..][i] == ApplicationArea(id, FindArea(areas, id).value);
        assert areas[i + 1] == areas[1..][i];
      }
    } else if areas != [] {
      assert areas[0] == ApplicationArea(id, FindArea(areas, id).value);
    }
  }

  /** With unique ids, the data at the index of an area with that id is what FindArea returns. */
  lemma {:induction false} FindAreaAt(areas: seq<ApplicationArea>, i: nat)
    requires UniqueAreaIds(areas) && i < |areas|
    ensures FindArea(areas, areas[i].applicationAreaId) == Some(areas[i].applicationArea)
    decreases |areas|
  {
    if i > 0 {
      assert areas[0].applicationAreaId != areas[i].applicationAreaId;
      assert areas[1..][i - 1] == areas[i];
      FindAreaAt(areas[1..], i - 1);
    }
  }

  /** ReplaceArea of the first match is an in-place update at that index. */
  lemma {:induction false} ReplaceAreaAt(areas: seq<ApplicationArea>, id: uint32, data: seq<byte>, i: nat)
    requires i < |areas| && areas[i].applicationAreaId == id
    requires forall k :: 0 <= k < i ==> areas[k].applicationAreaId != id
    ensures ReplaceArea(areas, id, data) == areas[i := ApplicationArea(id, data)]
    decreases |areas|
  {
    if i > 0 {
      assert areas[0].applicationAreaId != id;
      ReplaceAreaAt(areas[1..], id, data, i - 1);
      assert areas[1..][i - 1 := ApplicationArea(id, data)] == areas[i := ApplicationArea(id, data)][1..];
    }
  }

  /** Without a match, ReplaceArea changes nothing. */
  lemma {:induction false} ReplaceAreaMissing(areas: seq<ApplicationArea>, id: uint32, data: seq<byte>)
    requires !HasArea(areas, id)
    ensures ReplaceArea(areas, id, data) == areas
    decreases |areas|
  {
    if areas != [] {
      ReplaceAreaMissing(areas[1..], id, data);
    }
  }

  /** ReplaceArea keeps every id in its place. */
  lemma {:induction false} ReplaceAreaIdsAt(areas: seq<ApplicationArea>, id: uint32, data: seq<byte>, k: nat)
    requires k < |areas|
    ensures ReplaceArea(areas, id, data)[k].applicationAreaId == areas[k].applicationAreaId
    decreases |areas|
  {
    if areas[0].applicationAreaId != id && k > 0 {
      ReplaceAreaIdsAt(areas[1..], id, data, k - 1);
    }
  }

  /** The list of ids, and so their uniqueness, is what ReplaceArea preserves. */
  lemma {:induction false} ReplaceAreaKeepsIds(areas: seq<ApplicationArea>, id: uint32, data: seq<byte>)
    ensures AreaIds(ReplaceArea(areas, id, data)) == AreaIds(areas)
    ensures UniqueAreaIds(areas) ==> UniqueAreaIds(ReplaceArea(areas, id, data))
  {
    var r := ReplaceArea(areas, id, data);
    forall k | 0 <= k < |areas| ensures r[k].applicationAreaId == areas[k].applicationAreaId {
      ReplaceAreaIdsAt(areas, id, data, k);
    }
  }

  /** After replacing, the area with that id holds the new data (when it exists). */
  lemma {:induction false} FindAfterReplace(areas: seq<ApplicationArea>, id: uint32, data: seq<byte>)
    requires HasArea(areas, id)
    ensures FindArea(ReplaceArea(areas, id, data), id) == Some(data)
    decreases |areas|
  {
    if areas[0].applicationAreaId != id {
      var i :| 0 <= i < |areas| && areas[i].applicationAreaId == id;
      assert areas[1..][i - 1].applicationAreaId == id;
      FindAfterReplace(areas[1..], id, data);
    }
  }

  /** Replacing the data of one id leaves what every other id finds unchanged. */
  lemma {:induction false} FindAfterReplaceOther(areas: seq<ApplicationArea>, id: uint32, data: seq<byte>, other: uint32)
    requires other != id
    ensures FindArea(ReplaceArea(areas, id, data), other) == FindArea(areas, other)
    decreases |areas|
  {
    if areas != [] && areas[0].applicationAreaId != id {
      FindAfterReplaceOther(areas[1..], id, data, other);
    }
  }

  /** Writing back the data an area already holds is the identity: the skipped save loses nothing. */
  lemma {:induction false} ReplaceWithSameData(areas: seq<ApplicationArea>, id: uint32, data: seq<byte>)
    requires FindArea(areas, id) == Some(data)
    ensures ReplaceArea(areas, id, data) == areas
    decreases |areas|
  {
    if areas[0].applicationAreaId != id {
      ReplaceWithSameData(areas[1..], id, data);
    }
  }

  /** Appending an area with a fresh id keeps the ids unique and makes the new area findable. */
  lemma AppendArea(areas: seq<ApplicationArea>, id: uint32, data: seq<byte>)
    requires UniqueAreaIds(areas) && !HasArea(areas, id)
    ensures UniqueAreaIds(areas + [ApplicationArea(id, data)])
    ensures FindArea(areas + [ApplicationArea(id, data)], id) == Some(data)
  {
    var r := areas + [ApplicationArea(id, data)];
    FindAreaAt(r, |areas|);
  }
}
