/**
 * Playback calls of MCWS (pymcws/api/playback.py). Each call sends one request through the
 * media server and decodes the reply; the model states the request a call sends and decodes
 * the reply it is given.
 */
module Playback {
  import opened Wrappers
  import opened Exceptions
  import opened Strings
  import opened Values
  import opened Dicts
  import opened Http
  import opened Model
  import opened Utils

  // ---------------------------------------------------------------- zone parameters

  /** `payload["Zone"] = zone.best_identifier(); payload["ZoneType"] = ...`, when a zone is given. */
  function WithZone(payload: Params, zone: Option<Zone>): Params
  {
    match zone
    case None => payload
    case Some(z) => Put(Put(payload, "Zone", BestIdentifier(z)), "ZoneType", BestIdentifierType(z))
  }

  /**
   * Without a zone the payload is left alone; with one, `Zone` and `ZoneType` are its best
   * identifier and that identifier's type, and every other parameter keeps its value.
   */
  lemma WithZoneEffect(payload: Params, zone: Option<Zone>, k: string)
    ensures zone.None? ==> WithZone(payload, zone) == payload
    ensures zone.Some? ==> Get(WithZone(payload, zone), "Zone") == Some(BestIdentifier(zone.value))
    ensures zone.Some? ==> Get(WithZone(payload, zone), "ZoneType") == Some(BestIdentifierType(zone.value))
    ensures k != "Zone" && k != "ZoneType" ==> Get(WithZone(payload, zone), k) == Get(payload, k)
  {
    if zone.Some? {
      var z := zone.value;
      var p1 := Put(payload, "Zone", BestIdentifier(z));
      GetPut(payload, "Zone", BestIdentifier(z), k);
      GetPut(payload, "Zone", BestIdentifier(z), "Zone");
      GetPut(p1, "ZoneType", BestIdentifierType(z), k);
      GetPut(p1, "ZoneType", BestIdentifierType(z), "Zone");
      GetPut(p1, "ZoneType", BestIdentifierType(z), "ZoneType");
    }
  }

  // ---------------------------------------------------------------- command

  /**
   * `command(name, zone)`: `Playback/<name>` addressed to the zone. The payload is built from
   * the zone unconditionally, so passing None raises AttributeError.
   */
  function CommandRequest(command: string, zone: Option<Zone>): Outcome<Request>
  {
    if zone.None? then Err(AttributeError)
    else Ok(Request("Playback/" + command, Some(WithZone([], zone))))
  }

  /**
   * A command goes to `Playback/<name>` with exactly the two zone parameters, and the type it
   * sends names the selector whose value it sends; the default zone is addressed by ID -1.
   */
  lemma CommandTargetsZone(command: string, z: Zone)
    ensures CommandRequest(command, Some(z)).Ok?
    ensures CommandRequest(command, Some(z)).value.extension == "Playback/" + command
    ensures CommandRequest(command, Some(z)).value.payload
         == Some([("Zone", BestIdentifier(z)), ("ZoneType", BestIdentifierType(z))])
    ensures BestIdentifierType(z) == Str("Name") ==> BestIdentifier(z) == z.name
    ensures CommandRequest(command, Some(CurrentZone)).value.payload
         == Some([("Zone", Int(-1)), ("ZoneType", Str("ID"))])
  {
    IdentifierTypeNamesIdentifier(z);
    assert BestIdentifier(CurrentZone) == Int(-1) && BestIdentifierType(CurrentZone) == Str("ID");
    ZoneOnly(z);
    ZoneOnly(CurrentZone);
  }

  /** The zone parameters alone, in the order they are assigned. */
  lemma ZoneOnly(z: Zone)
    ensures WithZone([], Some(z)) == [("Zone", BestIdentifier(z)), ("ZoneType", BestIdentifierType(z))]
  {
    var p1 := Put([], "Zone", BestIdentifier(z));
    assert p1 == [("Zone", BestIdentifier(z))];
    assert |"Zone"| != |"ZoneType"|;
    assert Put(p1, "ZoneType", BestIdentifierType(z)) == [p1[0]] + Put(p1[1..], "ZoneType", BestIdentifierType(z));
  }

  // ---------------------------------------------------------------- zones

  /** `zones(see_hidden)` asks for `Playback/Zones`, passing the flag as `Hidden`. */
  function ZonesRequest(seeHidden: bool): Request
  {
    Request("Playback/Zones", Some([("Hidden", Flag(seeHidden))]))
  }

  /** Hidden zones are asked for exactly when `see_hidden` is set. */
  lemma ZonesRequestHidden(seeHidden: bool)
    ensures ZonesRequest(seeHidden).payload.Some?
    ensures Get(ZonesRequest(seeHidden).payload.value, "Hidden") == Some(Str("1")) <==> seeHidden
    ensures Get(ZonesRequest(seeHidden).payload.value, "Hidden") == Some(Str("0")) <==> !seeHidden
  {
  }

  /** Zone `i` read from the decoded reply: id, name, GUID, then DLNA; a missing key raises. */
  function ZoneAt(content: Dict<Value>, i: nat): Outcome<Zone>
  {
    var id :- Lookup(content, "ZoneID" + IntToString(i));
    var name :- Lookup(content, "ZoneName" + IntToString(i));
    var guid :- Lookup(content, "ZoneGUID" + IntToString(i));
    var dlna :- Lookup(content, "ZoneDLNA" + IntToString(i));
    Ok(Zone(id, Int(i), name, guid, Bool(PyEq(dlna, Str("1")))))
  }

  /** Reading zone `i` of a decoded reply, as a function of `i`. */
  function ZoneReader(content: Dict<Value>): nat -> Outcome<Zone>
  {
    (i: nat) => ZoneAt(content, i)
  }

  /** Zones 0 .. n - 1, each read with `read`, first to last; the first failure raises. */
  function ZonesUpTo(read: nat -> Outcome<Zone>, n: nat): Outcome<seq<Zone>>
    decreases n
  {
    if n == 0 then Ok([])
    else
      var front :- ZonesUpTo(read, n - 1);
      var z :- read(n - 1);
      Ok(front + [z])
  }

  /** How many zones `range(int(content["NumberZones"]))` yields: none for a negative count. */
  function ZoneCount(content: Dict<Value>): Outcome<nat>
  {
    var count :- Lookup(content, "NumberZones");
    var n :- PyInt(count);
    Ok(if n < 0 then 0 else n)
  }

  /** The zones of a decoded reply, 0 up to the count. */
  function ZoneList(content: Dict<Value>): Outcome<seq<Zone>>
  {
    var n :- ZoneCount(content);
    ZonesUpTo(ZoneReader(content), n)
  }

  /** `zones()` on the reply of `Playback/Zones`. */
  function ZonesReply(response: Response): Outcome<seq<Zone>>
  {
    var _ :- RaiseForStatus(response);
    var content :- Unstructured(response.body, false);
    ZoneList(content)
  }

  /** `zones()` applied to the reply of `Playback/Zones`. */
  method Zones(response: Response) returns (r: Outcome<seq<Zone>>)
    ensures r == ZonesReply(response)
  {
    var _ :- RaiseForStatus(response);
    var content :- TransformUnstructuredResponse(response, false);
    var count :- Lookup(content, "NumberZones");
    var numZones :- PyInt(count);
    var n: nat := if numZones < 0 then 0 else numZones;
    var zones: seq<Zone> := [];
    for i := 0 to n
      invariant ZonesUpTo(ZoneReader(content), i) == Ok(zones)
    {
      var zone := ReadZone(content, i);
      assert ZoneReader(content)(i) == zone;
      if zone.Err? {
        ZonesErrorPersists(ZoneReader(content), i + 1, n);
        return Err(zone.error);
      }
      zones := zones + [zone.value];
    }
    return Ok(zones);
  }

  /** The loop body of `zones()`: a fresh Zone filled in field by field. */
  method ReadZone(content: Dict<Value>, i: nat) returns (r: Outcome<Zone>)
    ensures r == ZoneAt(content, i)
  {
    var zone := CurrentZone;
    zone := zone.(index := Int(i));
    var id :- Lookup(content, "ZoneID" + IntToString(i));
    zone := zone.(id := id);
    var name :- Lookup(content, "ZoneName" + IntToString(i));
    zone := zone.(name := name);
    var guid :- Lookup(content, "ZoneGUID" + IntToString(i));
    zone := zone.(guid := guid);
    var dlna :- Lookup(content, "ZoneDLNA" + IntToString(i));
    zone := zone.(isDlna := Bool(PyEq(dlna, Str("1"))));
    return Ok(zone);
  }

  lemma {:induction false} ZonesErrorPersists(read: nat -> Outcome<Zone>, j: nat, n: nat)
    requires j <= n && ZonesUpTo(read, j).Err?
    ensures ZonesUpTo(read, n) == ZonesUpTo(read, j)
    decreases n - j
  {
    if j < n {
      ZonesErrorPersists(read, j, n - 1);
    }
  }

  /** The reconstruction succeeds exactly when every zone below the count can be read. */
  lemma {:induction false} ZonesUpToOk(read: nat -> Outcome<Zone>, n: nat)
    ensures ZonesUpTo(read, n).Ok? <==> forall i :: 0 <= i < n ==> read(i).Ok?
    decreases n
  {
    if n > 0 {
      ZonesUpToOk(read, n - 1);
    }
  }

  /** A successful reconstruction holds exactly the zones below the count, zone `i` at `i`. */
  lemma {:induction false} ZonesUpToShape(read: nat -> Outcome<Zone>, n: nat)
    requires ZonesUpTo(read, n).Ok?
    ensures |ZonesUpTo(read, n).value| == n
    ensures forall i :: 0 <= i < n ==> read(i) == Ok(ZonesUpTo(read, n).value[i])
    decreases n
  {
    if n > 0 {
      ZonesUpToShape(read, n - 1);
    }
  }

  /**
   * Zone `i` carries index `i` and the values reported as `ZoneID<i>`, `ZoneName<i>` and
   * `ZoneGUID<i>`; it is a DLNA zone exactly when `ZoneDLNA<i>` is "1". It can be read
   * exactly when all four keys are present.
   */
  lemma ZoneAtExact(content: Dict<Value>, i: nat)
    ensures ZoneAt(content, i).Ok? <==>
      && "ZoneID" + IntToString(i) in Keys(content)
      && "ZoneName" + IntToString(i) in Keys(content)
      && "ZoneGUID" + IntToString(i) in Keys(content)
      && "ZoneDLNA" + IntToString(i) in Keys(content)
    ensures ZoneAt(content, i).Ok? ==> var z := ZoneAt(content, i).value;
      && z.index == Int(i)
      && Get(content, "ZoneID" + IntToString(i)) == Some(z.id)
      && Get(content, "ZoneName" + IntToString(i)) == Some(z.name)
      && Get(content, "ZoneGUID" + IntToString(i)) == Some(z.guid)
      && (z.isDlna == Bool(true) <==> Get(content, "ZoneDLNA" + IntToString(i)) == Some(Str("1")))
      && (z.isDlna == Bool(false) <==> Get(content, "ZoneDLNA" + IntToString(i)) != Some(Str("1")))
  {
    var id := Lookup(content, "ZoneID" + IntToString(i));
    var name := Lookup(content, "ZoneName" + IntToString(i));
    var guid := Lookup(content, "ZoneGUID" + IntToString(i));
    var dlna := Lookup(content, "ZoneDLNA" + IntToString(i));
    if id.Ok? && name.Ok? && guid.Ok? && dlna.Ok? {
      assert ZoneAt(content, i) == Ok(Zone(id.value, Int(i), name.value, guid.value, Bool(PyEq(dlna.value, Str("1")))));
      assert PyEq(dlna.value, Str("1")) <==> dlna.value == Str("1");
    } else {
      assert ZoneAt(content, i).Err?;
    }
  }

  /**
   * `zones()` succeeds exactly when the count can be read and so can every zone below it;
   * it then returns exactly `int(NumberZones)` zones (none for a negative count), zone `i`
   * being the one read under the suffix `i`.
   */
  lemma ZoneListShape(content: Dict<Value>)
    ensures ZoneList(content).Ok? <==>
      ZoneCount(content).Ok? && forall i :: 0 <= i < ZoneCount(content).value ==> ZoneAt(content, i).Ok?
    ensures ZoneList(content).Ok? ==> |ZoneList(content).value| == ZoneCount(content).value
    ensures ZoneList(content).Ok? ==> forall i :: 0 <= i < |ZoneList(content).value| ==>
      ZoneAt(content, i) == Ok(ZoneList(content).value[i])
  {
    if ZoneCount(content).Ok? {
      var read := ZoneReader(content);
      var n := ZoneCount(content).value;
      ZonesUpToOk(read, n);
      assert forall i :: 0 <= i < n ==> read(i) == ZoneAt(content, i);
      if ZoneList(content).Ok? {
        ZonesUpToShape(read, n);
      }
    }
  }

  // ---------------------------------------------------------------- info and mute

  /** `info(zone)` asks for `Playback/Info` with the zone parameters only. */
  function InfoRequest(zone: Option<Zone>): Request
  {
    Request("Playback/Info", Some(WithZone([], zone)))
  }

  /** `info()` on its reply: the decoded dict with integer texts cast to int. */
  function InfoReply(response: Response): Outcome<Dict<Value>>
  {
    var _ :- RaiseForStatus(response);
    Unstructured(response.body, true)
  }

  /**
   * The request `mute(mode, zone)` sends, as written: with no mode it reads the state through
   * `info()` of the default zone, otherwise it sends `Playback/Mute` with `Set`; the zone
   * argument is never used.
   */
  function MuteRequestAsWritten(mode: Option<bool>, zone: Option<Zone>): Request
  {
    match mode
    case None => InfoRequest(Some(CurrentZone))
    case Some(m) => Request("Playback/Mute", Some([("Set", Flag(m))]))
  }

  /**
   * `mute(mode, zone)` addressed to the zone it is given, as its documentation describes:
   * reading goes through `Playback/Info`, setting through `Playback/Mute` with `Set`, and
   * either way a given zone is named by its best identifier.
   */
  function MuteRequest(mode: Option<bool>, zone: Option<Zone>): (r: Request)
    ensures r.extension == (if mode.None? then "Playback/Info" else "Playback/Mute")
    ensures r.payload.Some?
    ensures mode.Some? ==> Get(r.payload.value, "Set") == Some(Flag(mode.value))
    ensures zone.Some? ==> Get(r.payload.value, "Zone") == Some(BestIdentifier(zone.value))
    ensures zone.Some? ==> Get(r.payload.value, "ZoneType") == Some(BestIdentifierType(zone.value))
  {
    match mode
    case None =>
      WithZoneEffect([], zone, "Set");
      InfoRequest(zone)
    case Some(m) =>
      WithZoneEffect([("Set", Flag(m))], zone, "Set");
      Request("Playback/Mute", Some(WithZone([("Set", Flag(m))], zone)))
  }

  /**
   * As written, `mute` sends the same request whatever zone it is given, so a zone named
   * "Kitchen" is never addressed; the corrected request names it.
   */
  lemma MuteIgnoresZone(mode: Option<bool>, z1: Option<Zone>, z2: Option<Zone>)
    ensures MuteRequestAsWritten(mode, z1) == MuteRequestAsWritten(mode, z2)
    ensures var kitchen := Zone(Null, Null, Str("Kitchen"), Null, Null);
      && Get(MuteRequestAsWritten(Some(true), Some(kitchen)).payload.value, "Zone") == None
      && Get(MuteRequest(Some(true), Some(kitchen)).payload.value, "Zone") == Some(Str("Kitchen"))
      && Get(MuteRequest(Some(true), Some(kitchen)).payload.value, "ZoneType") == Some(Str("Name"))
  {
    var kitchen := Zone(Null, Null, Str("Kitchen"), Null, Null);
    WithZoneEffect([("Set", Flag(true))], Some(kitchen), "Set");
  }

  /**
   * The corrected request differs from the source only in the zone parameters: reading the
   * state never sends a Mute request, and setting it sends `Set` "1" or "0".
   */
  lemma MuteRequestRules(mode: Option<bool>, zone: Option<Zone>)
    ensures mode.None? <==> MuteRequest(mode, zone).extension == "Playback/Info"
    ensures mode.None? <==> MuteRequestAsWritten(mode, zone).extension == "Playback/Info"
    ensures mode.Some? ==> MuteRequest(mode, zone).extension == "Playback/Mute"
    ensures mode.Some? ==>
      Get(MuteRequest(mode, zone).payload.value, "Set") == Some(Str(if mode.value then "1" else "0"))
    ensures mode.Some? ==>
      MuteRequestAsWritten(mode, zone).payload == Some([("Set", Str(if mode.value then "1" else "0"))])
  {
    if mode.Some? {
      WithZoneEffect([("Set", Flag(mode.value))], zone, "Set");
    }
  }

  /**
   * `mute(mode)` on its reply: with no mode, whether `info()` reports `VolumeDisplay` as
   * "Muted"; otherwise whether the Mute reply reports `State` "1".
   */
  function MuteReply(mode: Option<bool>, response: Response): Outcome<bool>
  {
    match mode
    case None =>
      var info :- InfoReply(response);
      var display :- Lookup(info, "VolumeDisplay");
      Ok(PyEq(display, Str("Muted")))
    case Some(_) =>
      var _ :- RaiseForStatus(response);
      var content :- Unstructured(response.body, false);
      var state :- Lookup(content, "State");
      Ok(PyEq(state, Str("1")))
  }

  /**
   * Read from the reply: without a mode the call is true exactly when the last
   * `VolumeDisplay` text is "Muted" (the integer cast of `info()` leaves that text alone);
   * with a mode, exactly when the last `State` text is "1".
   */
  lemma MuteReadsReply(mode: Option<bool>, response: Response, i: int)
    requires MuteReply(mode, response).Ok?
    requires mode.None? ==> LastNamed(response.body, i, "VolumeDisplay")
    requires mode.Some? ==> LastNamed(response.body, i, "State")
    ensures !(400 <= response.status < 600)
    ensures mode.None? ==> (MuteReply(mode, response).value <==> response.body[i].text == Some("Muted"))
    ensures mode.Some? ==> (MuteReply(mode, response).value <==> response.body[i].text == Some("1"))
  {
    if mode.None? {
      UnstructuredLastText(response.body, true, i, "VolumeDisplay");
      var t := response.body[i].text;
      if t.Some? {
        CastIntOnTexts(t.value);
      }
    } else {
      UnstructuredLastText(response.body, false, i, "State");
    }
  }

  // ---------------------------------------------------------------- repeat and shuffle

  /** `if mode is False: mode = "Off"`: only the value False itself is rewritten. */
  function RepeatMode(mode: Value): (m: Value)
    ensures mode == Bool(false) ==> m == Str("Off")
    ensures mode != Bool(false) ==> m == mode
  {
    if mode == Bool(false) then Str("Off") else mode
  }

  /** `repeat(mode, zone)` asks for `Playback/Repeat` with the mode and the zone parameters. */
  function RepeatRequest(mode: Value, zone: Option<Zone>): Request
  {
    Request("Playback/Repeat", Some(WithZone([("Mode", RepeatMode(mode))], zone)))
  }

  /** `shuffle(mode, zone)` asks for `Playback/Shuffle` with the mode and the zone parameters. */
  function ShuffleRequest(mode: Value, zone: Option<Zone>): Request
  {
    Request("Playback/Shuffle", Some(WithZone([("Mode", mode)], zone)))
  }

  /** `repeat()` and `shuffle()` on their reply: the `Mode` the server reports. */
  function ModeReply(response: Response): Outcome<Value>
  {
    var _ :- RaiseForStatus(response);
    var content :- Unstructured(response.body, false);
    Lookup(content, "Mode")
  }

  /**
   * `repeat(False)` sends Mode "Off"; every other mode, 0 and None included, is sent as
   * given; the zone parameters are there exactly when a zone is given.
   */
  lemma RepeatFalseIsOff(mode: Value, zone: Option<Zone>)
    ensures Get(RepeatRequest(Bool(false), zone).payload.value, "Mode") == Some(Str("Off"))
    ensures mode != Bool(false) ==> Get(RepeatRequest(mode, zone).payload.value, "Mode") == Some(mode)
    ensures Get(RepeatRequest(Int(0), zone).payload.value, "Mode") == Some(Int(0))
    ensures zone.None? <==> "Zone" !in Keys(RepeatRequest(mode, zone).payload.value)
  {
    WithZoneEffect([("Mode", RepeatMode(mode))], zone, "Mode");
    WithZoneEffect([("Mode", RepeatMode(Bool(false)))], zone, "Mode");
    WithZoneEffect([("Mode", RepeatMode(Int(0)))], zone, "Mode");
    WithZoneEffect([("Mode", RepeatMode(mode))], zone, "Zone");
  }

  /** The mode read back is the text of the reply's last `Mode` element. */
  lemma ModeReadsReply(response: Response, i: int)
    requires ModeReply(response).Ok? && LastNamed(response.body, i, "Mode")
    ensures ModeReply(response).value == TextValue(response.body[i])
  {
    UnstructuredLastText(response.body, false, i, "Mode");
  }

  // ---------------------------------------------------------------- set_playlist

  /** What `set_playlist` may be given as `files`. */
  datatype PlaylistArgument =
    | OneFile(file: Dict<Value>)          // a single file (a dict)
    | FileList(files: seq<Dict<Value>>)   // a list of files
    | Serialized(text: string)            // a playlist the caller serialised
    | Unusable                            // anything else

  /** `if isinstance(files, dict): files = [files]`. */
  function Normalised(files: PlaylistArgument): PlaylistArgument
  {
    if files.OneFile? then FileList([files.file]) else files
  }

  /** The `Playlist` parameter: a serialised list, the caller's text, or None. */
  function PlaylistValue(files: PlaylistArgument, active: int): Outcome<Value>
  {
    match Normalised(files)
    case FileList(fs) =>
      var text :- SerializedFileList(fs, active);
      Ok(Str(text))
    case Serialized(t) => Ok(Str(t))
    case _ => Ok(Null)
  }

  /** `set_playlist(files, zone, active_item_index)` asks for `Playback/SetPlayList`. */
  function SetPlaylistRequest(files: PlaylistArgument, zone: Option<Zone>, active: int): Outcome<Request>
  {
    var playlist :- PlaylistValue(files, active);
    Ok(Request("Playback/SetPlayList", Some(WithZone([("Playlist", playlist)], zone))))
  }

  /** `set_playlist` on its reply: nothing, unless the status is an error. */
  function SetPlaylistReply(response: Response): (r: Outcome<()>)
    ensures r.Ok? <==> !(400 <= response.status < 600)
  {
    var _ :- RaiseForStatus(response);
    Ok(())
  }

  /**
   * A single file is sent as the one-element list; a caller's text is sent as it is; any
   * other argument sends `Playlist` None.
   */
  lemma SetPlaylistArguments(file: Dict<Value>, text: string, zone: Option<Zone>, active: int)
    ensures SetPlaylistRequest(OneFile(file), zone, active) == SetPlaylistRequest(FileList([file]), zone, active)
    ensures SetPlaylistRequest(Serialized(text), zone, active).Ok?
    ensures Get(SetPlaylistRequest(Serialized(text), zone, active).value.payload.value, "Playlist")
         == Some(Str(text))
    ensures Get(SetPlaylistRequest(Unusable, zone, active).value.payload.value, "Playlist") == Some(Null)
  {
    assert Normalised(OneFile(file)) == Normalised(FileList([file]));
    assert PlaylistValue(OneFile(file), active) == PlaylistValue(FileList([file]), active);
    assert PlaylistValue(Serialized(text), active) == Ok(Str(text));
    WithZoneEffect([("Playlist", Str(text))], zone, "Playlist");
    assert PlaylistValue(Unusable, active) == Ok(Null);
    WithZoneEffect([("Playlist", Null)], zone, "Playlist");
  }

  /** Files with integer keys are sent as "2;<n>;<active>;<key 1>;...;<key n>". */
  lemma SetPlaylistSerialises(files: seq<Dict<Value>>, zone: Option<Zone>, active: int)
    requires forall i :: 0 <= i < |files| ==> Get(files[i], "Key").Some? && Get(files[i], "Key").value.Int?
    ensures SetPlaylistRequest(FileList(files), zone, active).Ok?
    ensures var p := Get(SetPlaylistRequest(FileList(files), zone, active).value.payload.value, "Playlist");
      && p.Some? && p.value.Str?
      && Split(p.value.s, ';') == ["2", IntToString(|files|), IntToString(active)] + IntegerKeys(files)
  {
    SerializedIntegerKeys(files, active);
    var text := SerializedFileList(files, active).value;
    assert PlaylistValue(FileList(files), active) == Ok(Str(text));
    WithZoneEffect([("Playlist", Str(text))], zone, "Playlist");
  }
}
