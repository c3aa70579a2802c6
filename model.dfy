/** Zones and media files (pymcws/model.py). */
module Model {
  import opened Wrappers
  import opened Exceptions
  import opened Values
  import opened Dicts

  // ---------------------------------------------------------------- Zone

  /**
   * A playback target. Each selector is a Python value: `Null` for None, otherwise what
   * the zone list reported (or what the caller set by hand).
   */
  datatype Zone = Zone(id: Value, index: Value, name: Value, guid: Value, isDlna: Value)

  /** `Zone()`: id -1 stands for the zone currently selected in MC; nothing else is known. */
  const CurrentZone: Zone := Zone(Int(-1), Null, Null, Null, Null)

  /** `best_identifier`: the id if known, else the name, else the index, else None. */
  function BestIdentifier(z: Zone): Value
  {
    if z.id != Null then z.id
    else if z.name != Null then z.name
    else if z.index != Null then z.index
    else Null
  }

  /** `best_identifier_type`: which selector `best_identifier` picks, or None. */
  function BestIdentifierType(z: Zone): Value
  {
    if z.id != Null then Str("ID")
    else if z.name != Null then Str("Name")
    else if z.index != Null then Str("Index")
    else Null
  }

  /**
   * The two methods agree: the type names the selector whose value is the identifier, each
   * selector is chosen exactly when every better one is missing, and there is no identifier
   * exactly when there is no type.
   */
  lemma IdentifierTypeNamesIdentifier(z: Zone)
    ensures BestIdentifierType(z) == Str("ID") <==> z.id != Null
    ensures BestIdentifierType(z) == Str("Name") <==> z.id == Null && z.name != Null
    ensures BestIdentifierType(z) == Str("Index") <==> z.id == Null && z.name == Null && z.index != Null
    ensures BestIdentifierType(z) == Null <==> BestIdentifier(z) == Null
    ensures BestIdentifierType(z) == Str("ID") ==> BestIdentifier(z) == z.id
    ensures BestIdentifierType(z) == Str("Name") ==> BestIdentifier(z) == z.name
    ensures BestIdentifierType(z) == Str("Index") ==> BestIdentifier(z) == z.index
  {
  }

  // ---------------------------------------------------------------- MediaFile, as values

  /** The state of a MediaFile: the dict itself and, per key, whether it was changed. */
  datatype Record = Record(contents: Dict<Value>, changed: map<string, bool>)

  /** The tracking invariant: a change flag exists for exactly the keys of the dict. */
  ghost predicate Tracked(r: Record)
  {
    DistinctKeys(r.contents) && forall k :: k in r.changed <==> k in Keys(r.contents)
  }

  /** `MediaFile(server, initial_fields)`: the fields as given, none of them changed. */
  function Initial(fields: Dict<Value>): (r: Record)
    requires DistinctKeys(fields)
    ensures Tracked(r)
  {
    Record(fields, map k | k in Keys(fields) :: false)
  }

  /** `file[key] = val`: stored and flagged only if it differs from `file.get(key, None)`. */
  function Assign(r: Record, key: string, val: Value): Record
  {
    var current := match Get(r.contents, key) case Some(v) => v case None => Null;
    if PyEq(val, current) then r
    else Record(Put(r.contents, key, val), r.changed[key := true])
  }

  /** `del file[key]`: drops the value and its flag; KeyError when the key is absent. */
  function Delete(r: Record, key: string): Outcome<Record>
  {
    if key !in Keys(r.contents) then Err(KeyError(key))
    else Ok(Record(Remove(r.contents, key), r.changed - {key}))
  }

  /** `changed_fields`: the pairs whose flag is not False, in the dict's order. */
  function ChangedFieldsOf(r: Record): Dict<Value>
    requires Tracked(r)
  {
    ChangedPairs(r.contents, r.changed)
  }

  function ChangedPairs(d: Dict<Value>, changed: map<string, bool>): Dict<Value>
    requires forall k :: k in Keys(d) ==> k in changed
  {
    if d == [] then []
    else
      assert Keys(d) == [d[0].0] + Keys(d[1..]);
      (if changed[d[0].0] then [d[0]] else []) + ChangedPairs(d[1..], changed)
  }

  /** `a` is `b` with some elements left out, the rest kept in order. */
  ghost predicate Subsequence<T>(a: seq<T>, b: seq<T>)
    decreases |b|
  {
    a == [] || (b != [] && ((a[0] == b[0] && Subsequence(a[1..], b[1..])) || Subsequence(a, b[1..])))
  }

  lemma {:induction false} ChangedPairsExact(d: Dict<Value>, changed: map<string, bool>)
    requires forall k :: k in Keys(d) ==> k in changed
    ensures Subsequence(ChangedPairs(d, changed), d)
    ensures forall p :: p in ChangedPairs(d, changed) <==> p in d && changed[p.0]
  {
    if d != [] {
      assert Keys(d) == [d[0].0] + Keys(d[1..]);
      ChangedPairsExact(d[1..], changed);
      var rest := ChangedPairs(d[1..], changed);
      if changed[d[0].0] {
        assert ChangedPairs(d, changed) == [d[0]] + rest;
        assert ([d[0]] + rest)[1..] == rest;
      } else {
        assert ChangedPairs(d, changed) == rest;
      }
      forall p ensures p in d <==> p == d[0] || p in d[1..] {
        assert d == [d[0]] + d[1..];
      }
    }
  }

  /**
   * `changed_fields` holds exactly the current values of the keys flagged as changed,
   * in the order of the dict.
   */
  lemma ChangedFieldsExact(r: Record)
    requires Tracked(r)
    ensures Subsequence(ChangedFieldsOf(r), r.contents)
    ensures forall k, v :: (k, v) in ChangedFieldsOf(r) <==> Get(r.contents, k) == Some(v) && r.changed[k]
  {
    ChangedPairsExact(r.contents, r.changed);
    forall k, v ensures (k, v) in r.contents <==> Get(r.contents, k) == Some(v) {
      if (k, v) in r.contents {
        var i :| 0 <= i < |r.contents| && r.contents[i] == (k, v);
        GetAt(r.contents, i);
      }
      if Get(r.contents, k) == Some(v) {
        GetIn(r.contents, k);
      }
    }
  }

  lemma {:induction false} GetIn(d: Dict<Value>, k: string)
    requires Get(d, k).Some?
    ensures (k, Get(d, k).value) in d
  {
    if d[0].0 != k {
      GetIn(d[1..], k);
    }
  }

  /** Assignment and deletion keep the tracking invariant. */
  lemma AssignTracked(r: Record, key: string, val: Value)
    requires Tracked(r)
    ensures Tracked(Assign(r, key, val))
  {
    PutDistinct(r.contents, key, val);
    KeysPut(r.contents, key, val);
  }

  lemma DeleteTracked(r: Record, key: string)
    requires Tracked(r)
    ensures Delete(r, key).Ok? ==> Tracked(Delete(r, key).value)
  {
    if key in Keys(r.contents) {
      RemoveDistinct(r.contents, key);
      RemoveIsSubsequence(r.contents, key);
      forall k ensures k in Keys(Remove(r.contents, key)) <==> k in Keys(r.contents) && k != key {
        if k in Keys(Remove(r.contents, key)) {
          var i :| 0 <= i < |Remove(r.contents, key)| && Keys(Remove(r.contents, key))[i] == k;
          assert Remove(r.contents, key)[i] in Remove(r.contents, key);
          var j :| 0 <= j < |r.contents| && r.contents[j] == Remove(r.contents, key)[i];
          assert Keys(r.contents)[j] == k;
        }
        if k in Keys(r.contents) && k != key {
          var j :| 0 <= j < |r.contents| && Keys(r.contents)[j] == k;
          assert r.contents[j] in Remove(r.contents, key);
          var i :| 0 <= i < |Remove(r.contents, key)| && Remove(r.contents, key)[i] == r.contents[j];
          assert Keys(Remove(r.contents, key))[i] == k;
        }
      }
    }
  }

  /** A fresh file reports no changed fields. */
  lemma InitialUnchanged(fields: Dict<Value>)
    requires DistinctKeys(fields)
    ensures ChangedFieldsOf(Initial(fields)) == []
  {
    NoFlagsNoPairs(fields, Initial(fields).changed);
  }

  lemma {:induction false} NoFlagsNoPairs(d: Dict<Value>, changed: map<string, bool>)
    requires forall k :: k in Keys(d) ==> k in changed && !changed[k]
    ensures ChangedPairs(d, changed) == []
  {
    if d != [] {
      assert Keys(d) == [d[0].0] + Keys(d[1..]);
      NoFlagsNoPairs(d[1..], changed);
    }
  }

  /**
   * Assigning a value that differs from the current one (Python `!=`) stores it and flags
   * the key; assigning an equal one changes nothing at all.
   */
  lemma AssignEffect(r: Record, key: string, val: Value, k: string)
    requires Tracked(r)
    ensures var current := (if Get(r.contents, key).Some? then Get(r.contents, key).value else Null);
      if PyEq(val, current) then Assign(r, key, val) == r
      else (Get(Assign(r, key, val).contents, k) == (if k == key then Some(val) else Get(r.contents, k))
            && Assign(r, key, val).changed == r.changed[key := true])
  {
    GetPut(r.contents, key, val, k);
  }

  /** A MediaFile operation: `file[key] = val` or `del file[key]`. */
  datatype Edit = SetEdit(key: string, val: Value) | DelEdit(key: string)

  /** The record after the edits, first to last, or the first KeyError. */
  function ApplyEdits(r: Record, edits: seq<Edit>): Outcome<Record>
    decreases |edits|
  {
    if edits == [] then Ok(r)
    else
      var next :- match edits[0]
        case SetEdit(k, v) => Ok(Assign(r, k, v))
        case DelEdit(k) => Delete(r, k);
      ApplyEdits(next, edits[1..])
  }

  /**
   * There is no way back to "unchanged": once a key is flagged, it stays flagged and keeps
   * showing up in `changed_fields` until it is deleted, even when its original value is
   * assigned again.
   */
  lemma {:induction false} ChangedStaysChanged(r: Record, edits: seq<Edit>, k: string)
    requires Tracked(r) && k in r.changed && r.changed[k]
    requires forall i :: 0 <= i < |edits| ==> edits[i] != DelEdit(k)
    ensures ApplyEdits(r, edits).Ok? ==>
      var r' := ApplyEdits(r, edits).value;
      Tracked(r') && k in r'.changed && r'.changed[k] && k in Keys(ChangedFieldsOf(r'))
    decreases |edits|
  {
    if edits == [] {
      ChangedFieldsExact(r);
      assert k in Keys(r.contents);
      var v := Get(r.contents, k).value;
      assert (k, v) in ChangedFieldsOf(r);
      var i :| 0 <= i < |ChangedFieldsOf(r)| && ChangedFieldsOf(r)[i] == (k, v);
      assert Keys(ChangedFieldsOf(r))[i] == k;
    } else {
      match edits[0]
      case SetEdit(key, val) =>
        AssignTracked(r, key, val);
        ChangedStaysChanged(Assign(r, key, val), edits[1..], k);
      case DelEdit(key) =>
        DeleteTracked(r, key);
        if Delete(r, key).Ok? {
          ChangedStaysChanged(Delete(r, key).value, edits[1..], k);
        }
    }
  }

  /** `del file[key]` forgets the key: an absent key fails with KeyError. */
  lemma DeleteForgets(r: Record, key: string)
    requires Tracked(r)
    ensures Delete(r, key).Err? <==> key !in Keys(r.contents)
    ensures Delete(r, key).Err? ==> Delete(r, key).error == KeyError(key)
    ensures Delete(r, key).Ok? ==>
      var r' := Delete(r, key).value;
      Tracked(r') && Get(r'.contents, key) == None && key !in r'.changed
      && key !in Keys(ChangedFieldsOf(r'))
  {
    GetRemove(r.contents, key, key);
    DeleteTracked(r, key);
    if Delete(r, key).Ok? {
      var r' := Delete(r, key).value;
      ChangedFieldsExact(r');
    }
  }

  /**
   * A file loaded with Name "A": setting "A" again and then "B" flags Name with value "B";
   * setting "A" back does not clear the flag; deleting Name empties the changed fields.
   */
  lemma NameScenario()
    ensures var r0 := Initial([("Name", Str("A"))]);
      var r1 := Assign(r0, "Name", Str("A"));
      var r2 := Assign(r1, "Name", Str("B"));
      var r3 := Assign(r2, "Name", Str("A"));
      Tracked(r2) && Tracked(r3) &&
      r1 == r0 && ChangedFieldsOf(r2) == [("Name", Str("B"))] &&
      ChangedFieldsOf(r3) == [("Name", Str("A"))] &&
      Delete(r3, "Name").Ok? && Tracked(Delete(r3, "Name").value) &&
      ChangedFieldsOf(Delete(r3, "Name").value) == []
  {
    var r0 := Initial([("Name", Str("A"))]);
    assert Keys([("Name", Str("A"))]) == ["Name"];
    AssignTracked(r0, "Name", Str("B"));
    var r2 := Assign(r0, "Name", Str("B"));
    AssignTracked(r2, "Name", Str("A"));
    var r3 := Assign(r2, "Name", Str("A"));
    assert r3.contents == [("Name", Str("A"))];
    DeleteTracked(r3, "Name");
  }

  // ---------------------------------------------------------------- MediaFile, the object

  /**
   * A dict that represents a file on the server and remembers which of its keys were
   * changed since it was loaded. The server reference it holds is not modelled.
   */
  class MediaFile {
    var contents: Dict<Value>
    var changed: map<string, bool>

    function State(): Record
      reads this
    {
      Record(contents, changed)
    }

    ghost predicate Valid()
      reads this
    {
      Tracked(State())
    }

    /** `MediaFile(server, initial_fields)`. */
    constructor (initialFields: Dict<Value>)
      requires DistinctKeys(initialFields)
      ensures Valid() && State() == Initial(initialFields)
    {
      var flags: map<string, bool> := map[];
      for i := 0 to |initialFields|
        invariant forall k :: k in flags <==> k in Keys(initialFields)[..i]
        invariant forall k :: k in flags ==> !flags[k]
      {
        flags := flags[initialFields[i].0 := false];
      }
      assert Keys(initialFields)[..|initialFields|] == Keys(initialFields);
      contents := initialFields;
      changed := flags;
    }

    /** `file[key]`. */
    function Item(key: string): (r: Outcome<Value>)
      reads this
      ensures r.Ok? <==> key in Keys(contents)
      ensures r.Ok? ==> Get(contents, key) == Some(r.value)
    {
      match Get(contents, key)
      case Some(v) => Ok(v)
      case None => Err(KeyError(key))
    }

    /** `file[key] = val`. */
    method SetItem(key: string, val: Value)
      requires Valid()
      modifies this
      ensures Valid() && State() == Assign(old(State()), key, val)
    {
      AssignTracked(State(), key, val);
      var current := match Get(contents, key) case Some(v) => v case None => Null;
      if !PyEq(val, current) {
        contents := Put(contents, key, val);
        changed := changed[key := true];
      }
    }

    /** `del file[key]`. */
    method DelItem(key: string) returns (r: Outcome<()>)
      requires Valid()
      modifies this
      ensures Valid()
      ensures r.Ok? <==> Delete(old(State()), key).Ok?
      ensures r.Ok? ==> State() == Delete(old(State()), key).value
      ensures r.Err? ==> State() == old(State()) && r.error == KeyError(key)
    {
      DeleteTracked(State(), key);
      if key !in Keys(contents) {
        return Err(KeyError(key));
      }
      contents := Remove(contents, key);
      changed := changed - {key};
      return Ok(());
    }

    /** `file.changed_fields`. */
    function ChangedFields(): (d: Dict<Value>)
      requires Valid()
      reads this
      ensures forall k, v :: (k, v) in d <==> Get(contents, k) == Some(v) && changed[k]
    {
      ChangedFieldsExact(State());
      ChangedFieldsOf(State())
    }
  }

  // ---------------------------------------------------------------- transform_path

  /** `str.replace(pattern, with)`: every non-overlapping occurrence, left to right. */
  function ReplaceText(s: string, pattern: string, with: string): string
    decreases |s|
  {
    if pattern == [] then
      with + (if s == [] then [] else [s[0]] + ReplaceText(s[1..], pattern, with))
    else if |pattern| <= |s| && s[..|pattern|] == pattern then
      with + ReplaceText(s[|pattern|..], pattern, with)
    else if s == [] then []
    else [s[0]] + ReplaceText(s[1..], pattern, with)
  }

  /**
   * `transform_path`: the loop rewrites a local copy of each path and discards it, so the
   * list comes back exactly as it was passed in.
   */
  method TransformPath(files: seq<string>, searchFor: string, replaceWith: string,
                       winToUnix: bool, unixToWin: bool)
    returns (r: seq<string>)
    ensures r == files
  {
    for i := 0 to |files| {
      var file := files[i];
      file := ReplaceText(file, searchFor, replaceWith);
      if winToUnix {
        file := ReplaceText(file, "\\", "/");
      } else if unixToWin {
        file := ReplaceText(file, "/", "\\");
      }
    }
    return files;
  }
}
