/**
 * Writing a file's changed tags back to the server (pymcws/api/file.py): the `File/SetInfo`
 * request built from a MediaFile's changed fields and the server's field table.
 */
module FileApi {
  import opened Wrappers
  import opened Exceptions
  import opened Strings
  import opened Values
  import opened Dicts
  import opened Http
  import opened FieldCodecs
  import opened Model

  /** The changed pairs whose names are in the filter, in order. */
  function Keep(changed: Dict<Value>, filter: set<string>): Dict<Value>
  {
    if changed == [] then []
    else (if changed[0].0 in filter then [changed[0]] else []) + Keep(changed[1..], filter)
  }

  /** `dict(filter(lambda elem: elem[0] in field_filter, changed.items()))`, when a filter is given. */
  function Selected(changed: Dict<Value>, filter: Option<set<string>>): Dict<Value>
  {
    match filter
    case None => changed
    case Some(f) => Keep(changed, f)
  }

  /** The filter keeps exactly the pairs whose names it holds, in their order. */
  lemma {:induction false} KeepExact(changed: Dict<Value>, filter: set<string>)
    ensures Subsequence(Keep(changed, filter), changed)
    ensures forall p :: p in Keep(changed, filter) <==> p in changed && p.0 in filter
  {
    if changed != [] {
      KeepExact(changed[1..], filter);
      var rest := Keep(changed[1..], filter);
      if changed[0].0 in filter {
        assert Keep(changed, filter) == [changed[0]] + rest;
        assert ([changed[0]] + rest)[1..] == rest;
      } else {
        assert Keep(changed, filter) == rest;
      }
      forall p ensures p in changed <==> p == changed[0] || p in changed[1..] {
        assert changed == [changed[0]] + changed[1..];
      }
    }
  }

  /**
   * `media_server.fields[field]["Encoder"](value) + ","`: KeyError for a field the table
   * lacks, the encoder's error, or TypeError when the encoder does not give a text.
   */
  function EncodeField(table: FieldTable, field: string, v: Value): Outcome<string>
  {
    if field !in table then Err(KeyError(field))
    else
      var e :- Encode(table[field].codec, v);
      if e.Str? then Ok(e.s) else Err(TypeError)
  }

  /** The encodings of the selected pairs, first to last; the first failure is raised. */
  function EncodedValues(table: FieldTable, changed: Dict<Value>): Outcome<seq<string>>
    decreases |changed|
  {
    if changed == [] then Ok([])
    else
      var front :- EncodedValues(table, changed[..|changed| - 1]);
      var last := changed[|changed| - 1];
      var e :- EncodeField(table, last.0, last.1);
      Ok(front + [e])
  }

  /** The payload of `set_info` for the selected pairs of a file with contents `contents`. */
  function SetInfoPayload(table: FieldTable, contents: Dict<Value>, selected: Dict<Value>): Outcome<Params>
  {
    var key :- Lookup(contents, "Key");
    PayloadFor(table, key, selected)
  }

  /** The payload once the key is known: it fails only when a written field cannot be encoded. */
  function PayloadFor(table: FieldTable, key: Value, selected: Dict<Value>): Outcome<Params>
  {
    var encoded :- EncodedValues(table, selected);
    Ok(PayloadOf(key, Keys(selected), encoded))
  }

  /** The payload for a key, the names written and their encodings. */
  function PayloadOf(key: Value, names: seq<string>, encoded: seq<string>): Params
  {
    [("File", key), ("FileType", Str("Key"))]
    + (if |names| > 1 then [("List", Str("CSV"))] else [])
    + [("Field", Str(Join(names, ","))), ("Value", Str(Join(encoded, ",")))]
  }

  /** The request `set_info(file, field_filter)` sends for a file in state `r`. */
  function SetInfoRequest(table: FieldTable, r: Record, filter: Option<set<string>>): Outcome<Request>
    requires Tracked(r)
  {
    var payload :- SetInfoPayload(table, r.contents, Selected(ChangedFieldsOf(r), filter));
    Ok(Request("File/SetInfo", Some(payload)))
  }

  /**
   * `set_info` up to the call of `send_request`, with `table` the server's field table; the
   * reply is then only checked with `raise_for_status`.
   */
  method SetInfo(table: FieldTable, file: MediaFile, fieldFilter: Option<set<string>>)
    returns (r: Outcome<Request>)
    requires file.Valid()
    ensures r == SetInfoRequest(table, file.State(), fieldFilter)
  {
    var changed := file.ChangedFields();
    if fieldFilter.Some? {
      changed := Keep(changed, fieldFilter.value);
    }
    assert changed == Selected(ChangedFieldsOf(file.State()), fieldFilter);
    var key :- file.Item("Key");
    var payload :- BuildPayload(table, key, changed);
    return Ok(Request("File/SetInfo", Some(payload)));
  }

  /** The payload assembly of `set_info`, after the file's key is read. */
  method BuildPayload(table: FieldTable, key: Value, changed: Dict<Value>) returns (r: Outcome<Params>)
    ensures r == PayloadFor(table, key, changed)
  {
    var payload: Params := [("File", key), ("FileType", Str("Key"))];
    // every key the payload is given below is new to it, so each assignment appends
    if |changed| > 1 {
      payload := payload + [("List", Str("CSV"))];
    }
    var texts :- AccumulateFields(table, changed);
    var (fields, values) := texts;
    ghost var encoded := EncodedValues(table, changed).value;
    assert fields == Terminated(Keys(changed)) && values == Terminated(encoded);
    TerminatedJoin(Keys(changed));
    TerminatedJoin(encoded);
    payload := payload + [("Field", Str(DropLast(fields)))];
    payload := payload + [("Value", Str(DropLast(values)))];
    assert payload == PayloadOf(key, Keys(changed), encoded);
    return Ok(payload);
  }

  /** The two comma-terminated texts the loop of `set_info` accumulates. */
  function Accumulated(table: FieldTable, changed: Dict<Value>): Outcome<(string, string)>
  {
    var encoded :- EncodedValues(table, changed);
    Ok((Terminated(Keys(changed)), Terminated(encoded)))
  }

  /** The loop of `set_info`: names and encodings, each followed by a comma. */
  method AccumulateFields(table: FieldTable, changed: Dict<Value>) returns (r: Outcome<(string, string)>)
    ensures r == Accumulated(table, changed)
  {
    var fields := "";
    var values := "";
    for i := 0 to |changed|
      invariant fields == Terminated(Keys(changed)[..i])
      invariant EncodedValues(table, changed[..i]).Ok?
      invariant values == Terminated(EncodedValues(table, changed[..i]).value)
    {
      var field := changed[i].0;
      assert Keys(changed)[..i + 1] == Keys(changed)[..i] + [field];
      assert changed[..i + 1][..i] == changed[..i];
      fields := fields + field + ",";
      if field !in table {
        EncodedValuesErrorPersists(table, changed, i + 1);
        return Err(KeyError(field));
      }
      var encoded := Encode(table[field].codec, changed[i].1);
      if encoded.Err? {
        EncodedValuesErrorPersists(table, changed, i + 1);
        return Err(encoded.error);
      }
      if !encoded.value.Str? {
        EncodedValuesErrorPersists(table, changed, i + 1);
        return Err(TypeError);
      }
      values := values + encoded.value.s + ",";
    }
    assert changed[..|changed|] == changed;
    assert Keys(changed)[..|changed|] == Keys(changed);
    return Ok((fields, values));
  }

  lemma {:induction false} EncodedValuesErrorPersists(table: FieldTable, changed: Dict<Value>, j: nat)
    requires j <= |changed| && EncodedValues(table, changed[..j]).Err?
    ensures EncodedValues(table, changed) == EncodedValues(table, changed[..j])
    decreases |changed| - j
  {
    if j < |changed| {
      assert changed[..j + 1][..j] == changed[..j];
      EncodedValuesErrorPersists(table, changed, j + 1);
    } else {
      assert changed[..j] == changed;
    }
  }

  /** The encodings line up with the selected pairs, one per pair, when none of them fails. */
  lemma {:induction false} EncodedValuesShape(table: FieldTable, changed: Dict<Value>)
    ensures EncodedValues(table, changed).Ok? <==>
      forall i :: 0 <= i < |changed| ==> EncodeField(table, changed[i].0, changed[i].1).Ok?
    ensures EncodedValues(table, changed).Ok? ==>
      |EncodedValues(table, changed).value| == |changed|
      && forall i :: 0 <= i < |changed| ==>
           EncodedValues(table, changed).value[i] == EncodeField(table, changed[i].0, changed[i].1).value
    decreases |changed|
  {
    if changed != [] {
      var front := changed[..|changed| - 1];
      EncodedValuesShape(table, front);
      assert forall i :: 0 <= i < |front| ==> front[i] == changed[i];
    }
  }

  /**
   * Which fields are written: exactly the changed fields (their current values) that pass
   * the filter, in the file's order.
   */
  lemma SelectedFields(r: Record, filter: Option<set<string>>)
    requires Tracked(r)
    ensures Subsequence(Selected(ChangedFieldsOf(r), filter), ChangedFieldsOf(r))
    ensures forall k, v :: (k, v) in Selected(ChangedFieldsOf(r), filter) <==>
      Get(r.contents, k) == Some(v) && r.changed[k] && (filter.None? || k in filter.value)
  {
    ChangedFieldsExact(r);
    if filter.Some? {
      KeepExact(ChangedFieldsOf(r), filter.value);
    } else {
      SubsequenceOfItself(ChangedFieldsOf(r));
    }
  }

  lemma {:induction false} SubsequenceOfItself<T>(a: seq<T>)
    ensures Subsequence(a, a)
  {
    if a != [] {
      SubsequenceOfItself(a[1..]);
    }
  }

  /**
   * The payload: `File` is the file's `Key` (KeyError without one), `FileType` is "Key",
   * `List` = "CSV" appears exactly when more than one field is written, `Field` joins the
   * names and `Value` their encodings with commas, in the same order. The request fails
   * exactly when the key is missing or a field cannot be encoded.
   */
  lemma SetInfoPayloadShape(table: FieldTable, contents: Dict<Value>, selected: Dict<Value>)
    ensures SetInfoPayload(table, contents, selected).Ok? <==>
      "Key" in Keys(contents) && forall i :: 0 <= i < |selected| ==> EncodeField(table, selected[i].0, selected[i].1).Ok?
    ensures "Key" !in Keys(contents) ==> SetInfoPayload(table, contents, selected) == Err(KeyError("Key"))
    ensures SetInfoPayload(table, contents, selected).Ok? ==>
      var p := SetInfoPayload(table, contents, selected).value;
      var encoded := EncodedValues(table, selected).value;
      Keys(p) == ["File", "FileType"] + (if |selected| > 1 then ["List"] else []) + ["Field", "Value"]
      && Some(p[0].1) == Get(contents, "Key")
      && p[1].1 == Str("Key")
      && p[|p| - 2].1 == Str(Join(Keys(selected), ","))
      && p[|p| - 1].1 == Str(Join(encoded, ","))
      && |encoded| == |selected|
      && forall i :: 0 <= i < |selected| ==> encoded[i] == EncodeField(table, selected[i].0, selected[i].1).value
  {
    EncodedValuesShape(table, selected);
    if SetInfoPayload(table, contents, selected).Ok? {
      var p := SetInfoPayload(table, contents, selected).value;
      if |selected| > 1 {
        assert Keys(p) == ["File", "FileType", "List", "Field", "Value"];
      } else {
        assert Keys(p) == ["File", "FileType", "Field", "Value"];
      }
    }
  }

  /**
   * The i-th name goes with the i-th value: when no name and no encoding contains a comma,
   * splitting `Field` and `Value` at commas gives the names and the encodings, equally many.
   * With no field selected both are the empty text.
   */
  lemma FieldsMatchValues(table: FieldTable, contents: Dict<Value>, selected: Dict<Value>)
    requires SetInfoPayload(table, contents, selected).Ok?
    ensures selected == [] ==>
      var p := SetInfoPayload(table, contents, selected).value;
      p[|p| - 2].1 == Str("") && p[|p| - 1].1 == Str("")
    ensures var encoded := EncodedValues(table, selected).value;
      (|selected| >= 1
       && (forall i :: 0 <= i < |selected| ==> ',' !in selected[i].0)
       && (forall i :: 0 <= i < |encoded| ==> ',' !in encoded[i])) ==>
      var p := SetInfoPayload(table, contents, selected).value;
      Split(p[|p| - 2].1.s, ',') == Keys(selected)
      && Split(p[|p| - 1].1.s, ',') == encoded
      && |Keys(selected)| == |encoded|
  {
    SetInfoPayloadShape(table, contents, selected);
    var encoded := EncodedValues(table, selected).value;
    if |selected| >= 1 && (forall i :: 0 <= i < |selected| ==> ',' !in selected[i].0)
       && (forall i :: 0 <= i < |encoded| ==> ',' !in encoded[i]) {
      SplitJoin(Keys(selected), ',');
      SplitJoin(encoded, ',');
    }
  }
}
