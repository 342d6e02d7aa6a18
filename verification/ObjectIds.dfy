/**
 Object ids: printed by the controller (Python), parsed by the controller and by the node agent (Go).

     <array type> D [<system id> D] <internal id> I <strong id>
 */
module ObjectIds {
  import opened Options
  import opened Text

  /** The two one-character delimiters of the shared configuration file. */
  datatype Delimiters = Delimiters(info: char, ids: char) {
    predicate Distinct() {
      info != ids
    }
  }

  datatype ObjectId = ObjectId(arrayType: string, systemId: Option<string>, internalId: Option<string>, uid: string)

  /** `_get_object_id`: an empty system id counts as none. */
  function GetObjectId(
      d: Delimiters, arrayType: string, systemId: string, internalId: string, strongId: string): string
  {
    var ids := Join([internalId, strongId], d.ids);
    if systemId != "" then Join([arrayType, systemId, ids], d.info) else Join([arrayType, ids], d.info)
  }

  /** `get_object_id_info`; None stands for ObjectIdError. */
  function GetObjectIdInfo(d: Delimiters, fullObjectId: string): Option<ObjectId> {
    var parts := Split(fullObjectId, d.info);
    if |parts| == 2 then WithIds(d, parts[0], None, parts[1])
    else if |parts| == 3 then WithIds(d, parts[0], Some(parts[1]), parts[2])
    else None
  }

  function WithIds(d: Delimiters, arrayType: string, systemId: Option<string>, objectId: string): Option<ObjectId> {
    var ids := Split(objectId, d.ids);
    if |ids| == 1 then Some(ObjectId(arrayType, systemId, None, ids[0]))
    else if |ids| == 2 then Some(ObjectId(arrayType, systemId, Some(ids[0]), ids[1]))
    else None
  }

  /** `GetVolumeUuid` of the node agent: it accepts anything. */
  function GetVolumeUuid(d: Delimiters, volumeId: string): string {
    var parts := Split(volumeId, d.info);
    var ids := Split(parts[|parts| - 1], d.ids);
    if |ids| == 2 then ids[1] else ids[0]
  }

  /** No field contains a delimiter that would be taken for the printer's own. */
  predicate Clean(d: Delimiters, arrayType: string, systemId: string, internalId: string, strongId: string) {
    && Free(arrayType, d.info) && Free(systemId, d.info)
    && Free(internalId, d.info) && Free(internalId, d.ids)
    && Free(strongId, d.info) && Free(strongId, d.ids)
  }

  function Fields(arrayType: string, systemId: string, internalId: string, strongId: string): ObjectId {
    ObjectId(arrayType, if systemId == "" then None else Some(systemId), Some(internalId), strongId)
  }

  lemma IdsRoundTrip(d: Delimiters, arrayType: string, system: Option<string>, internalId: string, strongId: string)
    requires Free(internalId, d.ids) && Free(strongId, d.ids)
    ensures WithIds(d, arrayType, system, Join([internalId, strongId], d.ids)) ==
            Some(ObjectId(arrayType, system, Some(internalId), strongId))
  {
    SplitOfJoin([internalId, strongId], d.ids);
  }

  lemma JoinPair(a: string, b: string, sep: char)
    ensures Join([a, b], sep) == a + [sep] + b
  {
    assert [a, b][1..] == [b];
  }

  /** Printing then parsing gives the fields back exactly when no field contains a delimiter. */
  lemma PrintedIdsParseBack(
      d: Delimiters, arrayType: string, systemId: string, internalId: string, strongId: string)
    requires d.Distinct()
    ensures GetObjectIdInfo(d, GetObjectId(d, arrayType, systemId, internalId, strongId)) ==
            Some(Fields(arrayType, systemId, internalId, strongId))
            <==> Clean(d, arrayType, systemId, internalId, strongId)
  {
    var printed := GetObjectId(d, arrayType, systemId, internalId, strongId);
    var ids := Join([internalId, strongId], d.ids);
    JoinPair(internalId, strongId, d.ids);
    if Clean(d, arrayType, systemId, internalId, strongId) {
      assert Free(ids, d.info);
      IdsRoundTrip(d, arrayType, if systemId == "" then None else Some(systemId), internalId, strongId);
      SplitOfJoin(if systemId != "" then [arrayType, systemId, ids] else [arrayType, ids], d.info);
    }
    if GetObjectIdInfo(d, printed) == Some(Fields(arrayType, systemId, internalId, strongId)) {
      var parts := Split(printed, d.info);
      var last := parts[|parts| - 1];
      var inner := Split(last, d.ids);
      SplitPartsAreFree(printed, d.info);
      SplitPartsAreFree(last, d.ids);
      assert inner == [internalId, strongId];
      JoinOfSplit(last, d.ids);
      assert Free(parts[0], d.info) && Free(last, d.info) && Free(inner[0], d.ids) && Free(inner[1], d.ids);
      assert last == internalId + [d.ids] + strongId;
      forall c | c in internalId || c in strongId ensures c in last {
      }
    }
  }

  /** The text after the last delimiter of the first kind. */
  function IdsPart(d: Delimiters, text: string): string {
    var parts := Split(text, d.info);
    parts[|parts| - 1]
  }

  /** Accepted are the texts with one or two delimiters and, after the last, at most one of the other kind. */
  lemma AcceptedExactly(d: Delimiters, text: string)
    ensures GetObjectIdInfo(d, text).Some? <==>
      1 <= Occurrences(text, d.info) <= 2 && Occurrences(IdsPart(d, text), d.ids) <= 1
  {
    PartsAreCounted(text, d.info);
    PartsAreCounted(IdsPart(d, text), d.ids);
  }

  /** The fields put together again, those that are absent left out. */
  function Reprinted(d: Delimiters, o: ObjectId): string {
    var ids := if o.internalId.Some? then Join([o.internalId.value, o.uid], d.ids) else o.uid;
    if o.systemId.Some? then Join([o.arrayType, o.systemId.value, ids], d.info) else Join([o.arrayType, ids], d.info)
  }

  /** Parsing loses nothing: the fields of an accepted text are the text. */
  lemma ParsedIdsPrintBack(d: Delimiters, text: string)
    requires GetObjectIdInfo(d, text).Some?
    ensures Reprinted(d, GetObjectIdInfo(d, text).value) == text
  {
    var parts := Split(text, d.info);
    var ids := Split(parts[|parts| - 1], d.ids);
    JoinOfSplit(text, d.info);
    JoinOfSplit(parts[|parts| - 1], d.ids);
    assert |parts| == 2 ==> parts == [parts[0], parts[1]];
    assert |parts| == 3 ==> parts == [parts[0], parts[1], parts[2]];
    assert |ids| == 1 ==> ids == [ids[0]];
    assert |ids| == 2 ==> ids == [ids[0], ids[1]];
    hide Split, Join;
    assert |ids| == 1 ==> Join([ids[0]], d.ids) == ids[0] by {
      OnePart(ids[0], d.ids);
    }
  }

  lemma OnePart(part: string, sep: char)
    ensures Join([part], sep) == part
  {
  }

  /** An id of the old form, without an internal id, gives all its fields and no internal id. */
  lemma OldFormReads(d: Delimiters, arrayType: string, systemId: string, strongId: string)
    requires d.Distinct() && Clean(d, arrayType, systemId, "", strongId)
    ensures GetObjectIdInfo(d, Join([arrayType, strongId], d.info)) == Some(ObjectId(arrayType, None, None, strongId))
    ensures GetObjectIdInfo(d, Join([arrayType, systemId, strongId], d.info)) ==
            Some(ObjectId(arrayType, Some(systemId), None, strongId))
  {
    SplitOfJoin([arrayType, strongId], d.info);
    SplitOfJoin([arrayType, systemId, strongId], d.info);
    SplitOfFree(strongId, d.ids);
  }

  /** On every id the controller accepts, the node agent extracts the same strong id. */
  lemma NodeReadsTheSameUid(d: Delimiters, volumeId: string)
    requires GetObjectIdInfo(d, volumeId).Some?
    ensures GetVolumeUuid(d, volumeId) == GetObjectIdInfo(d, volumeId).value.uid
  {
  }

  /** End to end: what the controller prints for a volume, the node agent resolves to the volume's own uid. */
  lemma NodeResolvesPrintedIds(d: Delimiters, arrayType: string, systemId: string, internalId: string, strongId: string)
    requires d.Distinct() && Clean(d, arrayType, systemId, internalId, strongId)
    ensures GetVolumeUuid(d, GetObjectId(d, arrayType, systemId, internalId, strongId)) == strongId
  {
    PrintedIdsParseBack(d, arrayType, systemId, internalId, strongId);
    NodeReadsTheSameUid(d, GetObjectId(d, arrayType, systemId, internalId, strongId));
  }

  /** An id without its internal part is a different text that names the same volume. */
  lemma OldFormNamesTheSameVolume(d: Delimiters, arrayType: string, internalId: string, strongId: string)
    requires d.Distinct() && Clean(d, arrayType, "", internalId, strongId)
    ensures var full, short := GetObjectId(d, arrayType, "", internalId, strongId), Join([arrayType, strongId], d.info);
      && full != short
      && GetObjectIdInfo(d, full).Some? && GetObjectIdInfo(d, short).Some?
      && GetObjectIdInfo(d, full).value.uid == GetObjectIdInfo(d, short).value.uid == strongId
  {
    PrintedIdsParseBack(d, arrayType, "", internalId, strongId);
    SplitOfJoin([arrayType, strongId], d.info);
    SplitOfFree(strongId, d.ids);
  }
}
