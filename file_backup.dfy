/**
 * The pure rules of frontend/js/fileManager.js: the shape check applied to imported data, and
 * the file name and payload of a timestamped backup. The two clock readings createBackup makes
 * are parameters, as ISO-8601 strings.
 */
module FileBackup {
  import opened Wrappers

  /** A parsed JSON value; numbers are integers here. */
  datatype Json = JNull | JBool(b: bool) | JNumber(n: int) | JString(s: string) | JArray(items: seq<Json>) | JObject(fields: map<string, Json>)

  /** `typeof data === 'object'` for a truthy value: objects and arrays. */
  predicate IsObjectLike(data: Json)
  {
    data.JObject? || data.JArray?
  }

  /** `data.key`; an array has no named properties of its own here. */
  function Get(data: Json, key: string): (r: Option<Json>)
    ensures r.Some? <==> data.JObject? && key in data.fields
  {
    if data.JObject? && key in data.fields then Some(data.fields[key]) else None
  }

  /** validateData. */
  function ValidateData(data: Json, dataType: string): bool
  {
    if !IsObjectLike(data) then false
    else if dataType == "profile" then
      var name := Get(data, "name");
      name.Some? && (name.value.JString? || name.value.JNull?)
    else if dataType == "history" then
      var conversations := Get(data, "conversations");
      conversations.Some? && conversations.value.JArray?
    else true
  }

  /**
   * Null and every non-object value fail; a profile needs a string or null name; a history needs
   * an array of conversations; any object or array passes for another type.
   */
  lemma ValidateDataMeaning(data: Json, dataType: string)
    ensures !IsObjectLike(data) ==> !ValidateData(data, dataType)
    ensures dataType == "profile" ==>
              (ValidateData(data, dataType) <==> data.JObject? && "name" in data.fields
                                                  && (data.fields["name"].JString? || data.fields["name"].JNull?))
    ensures dataType == "history" ==>
              (ValidateData(data, dataType) <==> data.JObject? && "conversations" in data.fields && data.fields["conversations"].JArray?)
    ensures dataType != "profile" && dataType != "history" ==> (ValidateData(data, dataType) <==> IsObjectLike(data))
  {
  }

  /** A profile whose name is missing (undefined) is rejected, an empty-string name accepted. */
  lemma ProfileNameCases(fields: map<string, Json>)
    ensures "name" !in fields ==> !ValidateData(JObject(fields), "profile")
    ensures ValidateData(JObject(fields["name" := JString("")]), "profile")
    ensures !ValidateData(JObject(fields["name" := JNumber(1)]), "profile")
  {
  }

  /** `ts.replace(/[:.]/g, '-')`. */
  function Dashed(ts: string): (r: string)
    ensures |r| == |ts|
    ensures forall i :: 0 <= i < |r| ==> r[i] == if ts[i] == ':' || ts[i] == '.' then '-' else ts[i]
    ensures ':' !in r && '.' !in r
  {
    if ts == [] then [] else [if ts[0] == ':' || ts[0] == '.' then '-' else ts[0]] + Dashed(ts[1..])
  }

  /** The backup file name `${type}_backup_${timestamp}.json`. */
  function BackupName(dataType: string, isoTime: string): string
  {
    dataType + "_backup_" + Dashed(isoTime) + ".json"
  }

  /** For a type without ':' or '.', the name has no colon and its only dot starts the `.json` extension. */
  lemma BackupNameShape(dataType: string, isoTime: string)
    requires ':' !in dataType && '.' !in dataType
    ensures var name := BackupName(dataType, isoTime);
            && ':' !in name
            && |name| >= 5 && name[|name| - 5..] == ".json"
            && (forall i :: 0 <= i < |name| && name[i] == '.' ==> i == |name| - 5)
            && name[..|dataType|] == dataType
  {
    var name := BackupName(dataType, isoTime);
    var head := dataType + "_backup_" + Dashed(isoTime);
    assert name == head + ".json";
    assert '.' !in head && ':' !in head;
    assert forall i :: 0 <= i < |head| ==> name[i] == head[i];
  }

  const BackupVersion: string := "1.0"

  /** The `backupInfo` record. */
  function BackupInfo(dataType: string, isoTime: string): Json
  {
    JObject(map["timestamp" := JString(isoTime), "type" := JString(dataType), "version" := JString(BackupVersion)])
  }

  /** `{...data, backupInfo: {...}}` for an object `data`. */
  function BackupPayload(fields: map<string, Json>, dataType: string, isoTime: string): Json
  {
    JObject(fields["backupInfo" := BackupInfo(dataType, isoTime)])
  }

  /** The name and payload createBackup writes; the name and the payload each read the clock once. */
  function CreateBackup(fields: map<string, Json>, dataType: string, nameTime: string, payloadTime: string): (string, Json)
  {
    (BackupName(dataType, nameTime), BackupPayload(fields, dataType, payloadTime))
  }

  /**
   * The payload keeps every field of the data except a previous `backupInfo`, which it
   * overwrites with the type and version 1.0; it adds nothing else.
   */
  lemma BackupPayloadMeaning(fields: map<string, Json>, dataType: string, isoTime: string)
    ensures var p := BackupPayload(fields, dataType, isoTime);
            && p.JObject?
            && p.fields.Keys == fields.Keys + {"backupInfo"}
            && (forall k :: k in fields && k != "backupInfo" ==> p.fields[k] == fields[k])
            && p.fields["backupInfo"].JObject?
            && p.fields["backupInfo"].fields["type"] == JString(dataType)
            && p.fields["backupInfo"].fields["version"] == JString("1.0")
            && p.fields["backupInfo"].fields["timestamp"] == JString(isoTime)
  {
  }

  /** A backup of valid data is valid data of the same type, and the reverse. */
  lemma BackupPreservesValidity(fields: map<string, Json>, dataType: string, isoTime: string)
    ensures ValidateData(BackupPayload(fields, dataType, isoTime), dataType) == ValidateData(JObject(fields), dataType)
  {
    var p := BackupPayload(fields, dataType, isoTime);
    assert "name" != "backupInfo" && "conversations" != "backupInfo";
    assert Get(p, "name") == Get(JObject(fields), "name");
    assert Get(p, "conversations") == Get(JObject(fields), "conversations");
  }
}
