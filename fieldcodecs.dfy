/**
 * The field table of `library.fields` (pymcws/api/library.py): for every field the server
 * knows, its reported description and the pair of converters chosen from its data type.
 */
module FieldCodecs {
  import opened Wrappers
  import opened Exceptions
  import opened Strings
  import opened Values
  import opened Dates
  import opened Http

  /** The Decoder/Encoder pairs `library.fields` can attach to a field. */
  datatype Codec =
    | TextCodec      // x  /  '"' + x + '"'
    | IntegerCodec   // int(x)  /  str(x)
    | DateFloatCodec // parse_jriver_date  /  serialize_jriver_date
    | DateCodec      // datetime.fromtimestamp(int(x))  /  str(datetime.timestamp(x))
    | ListCodec      // x.split(";")  /  '"' + ";".join(x) + '"'
    | DecimalCodec   // float(x.replace(",", "."))  /  str(x)
    | IdentityCodec  // x  /  x

  /** The converters chosen for a reported data type; unknown types get the identity. */
  function CodecFor(dataType: string): Codec
  {
    if dataType in {"String", "Path", "User", "Image File"} then TextCodec
    else if dataType in {"Integer", "File Size"} then IntegerCodec
    else if dataType == "Date (float)" then DateFloatCodec
    else if dataType == "Date" then DateCodec
    else if dataType == "List" then ListCodec
    else if dataType in {"Decimal", "Percentage", "Time"} then DecimalCodec
    else IdentityCodec
  }

  /**
   * The Decoder applied to the text of a tag (None for an empty tag): the identity codecs
   * and the date parser pass None through, int(None) is a TypeError and None has no
   * split/replace.
   */
  function Decode(c: Codec, text: Option<string>): Outcome<Value>
  {
    var raw := if text.Some? then Str(text.value) else Null;
    match c
    case TextCodec => Ok(raw)
    case IntegerCodec =>
      var n :- PyInt(raw);
      Ok(Int(n))
    case DateFloatCodec => ParseJRiverDate(text)
    case DateCodec =>
      var n :- PyInt(raw);
      Ok(Timestamp(n))
    case ListCodec => if text.Some? then Ok(StrList(Split(text.value, ';'))) else Err(AttributeError)
    case DecimalCodec =>
      if text.None? then Err(AttributeError)
      else
        var decimal := ReplaceAll(text.value, ',', ".");
        if FloatText(decimal) then Ok(Real(decimal)) else Err(ValueError(decimal))
    case IdentityCodec => Ok(raw)
  }

  function Quoted(s: string): string
  {
    "\"" + s + "\""
  }

  /** The Encoder applied to a value before it is sent back to MCWS. */
  function Encode(c: Codec, v: Value): Outcome<Value>
  {
    match c
    case TextCodec => if v.Str? then Ok(Str(Quoted(v.s))) else Err(TypeError)
    case IntegerCodec =>
      var s :- PyStr(v);
      Ok(Str(s))
    case DateFloatCodec => SerializeJRiverDate(v)
    case DateCodec => if v.Timestamp? || v.DaysSince? then Err(NotModelled) else Err(TypeError)
    case ListCodec =>
      // str.join takes any iterable of strings: a plain string is joined character by character
      if v.StrList? then Ok(Str(Quoted(Join(v.items, ";"))))
      else if v.Str? then Ok(Str(Quoted(Join(Characters(v.s), ";"))))
      else Err(TypeError)
    case DecimalCodec =>
      var s :- PyStr(v);
      Ok(Str(s))
    case IdentityCodec => Ok(v)
  }

  /** The quote marks of a text or list field enclose the plain text a decoder produces. */
  function Unquoted(v: Value): Value
  {
    if v.Str? && |v.s| >= 2 && v.s[0] == '"' && v.s[|v.s| - 1] == '"' then Str(v.s[1..|v.s| - 1])
    else v
  }

  /** A text field sends back, inside quotes, exactly the text it was read as. */
  lemma TextRoundTrip(text: string)
    ensures Decode(TextCodec, Some(text)).Ok?
    ensures Encode(TextCodec, Decode(TextCodec, Some(text)).value) == Ok(Str(Quoted(text)))
  {
  }

  /** A list field splits at ';' and joins with ';' again, so the text survives inside quotes. */
  lemma ListRoundTrip(text: string)
    ensures Decode(ListCodec, Some(text)).Ok?
    ensures Encode(ListCodec, Decode(ListCodec, Some(text)).value) == Ok(Str(Quoted(text)))
  {
    JoinSplit(text, ';');
  }

  /** A list of items without ';', encoded and decoded again, gives back the same items. */
  lemma ListItemsRoundTrip(items: seq<string>)
    requires |items| >= 1
    requires forall i :: 0 <= i < |items| ==> ';' !in items[i]
    ensures Encode(ListCodec, StrList(items)).Ok?
    ensures Decode(ListCodec, Some(Unquoted(Encode(ListCodec, StrList(items)).value).s)) == Ok(StrList(items))
  {
    var q := Quoted(Join(items, ";"));
    assert |q| >= 2 && q[0] == '"' && q[|q| - 1] == '"';
    assert q[1..|q| - 1] == Join(items, ";");
    assert Unquoted(Encode(ListCodec, StrList(items)).value) == Str(Join(items, ";"));
    SplitJoin(items, ';');
  }

  /** An integer field decodes the text of any int back to that int, and encodes it to that text. */
  lemma IntegerRoundTrip(i: int)
    ensures Decode(IntegerCodec, Some(IntToString(i))) == Ok(Int(i))
    ensures Encode(IntegerCodec, Int(i)) == Ok(Str(IntToString(i)))
  {
    ParseIntToString(i);
  }

  /** An integer field fails with ValueError on text that is not an int, TypeError on no text. */
  lemma IntegerRejects(text: string)
    ensures Decode(IntegerCodec, Some(text)).Err? <==> ParseInt(text).None?
    ensures Decode(IntegerCodec, Some(text)).Err? ==> Decode(IntegerCodec, Some(text)).error == ValueError(text)
    ensures Decode(IntegerCodec, None) == Err(TypeError)
  {
  }

  /**
   * A decimal field reads a text with its decimal commas turned into points, raises ValueError
   * where `float()` rejects that and AttributeError on an empty tag.
   */
  lemma DecimalDecodes(text: string)
    ensures Decode(DecimalCodec, Some(text)).Ok? <==> FloatText(ReplaceAll(text, ',', "."))
    ensures Decode(DecimalCodec, Some(text)).Ok? ==> Decode(DecimalCodec, Some(text)).value == Real(ReplaceAll(text, ',', "."))
    ensures Decode(DecimalCodec, Some(text)).Err? ==> Decode(DecimalCodec, Some(text)).error == ValueError(ReplaceAll(text, ',', "."))
    ensures Decode(DecimalCodec, None) == Err(AttributeError)
  {
  }

  /** Every integer text is read by a decimal field, as its own text. */
  lemma DecimalReadsIntegers(i: int)
    ensures Decode(DecimalCodec, Some(IntToString(i))) == Ok(Real(IntToString(i)))
  {
    var s := IntToString(i);
    ParseIntToString(i);
    IntToStringHasNo(i, ',');
    ReplaceAllAbsent(s, ',', ".");
    IntTextIsFloatText(s);
    DecimalDecodes(s);
  }

  /** Unknown data types pass values through unchanged in both directions. */
  lemma IdentityRoundTrip(text: string, v: Value)
    ensures Decode(IdentityCodec, Some(text)) == Ok(Str(text)) && Decode(IdentityCodec, None) == Ok(Null)
    ensures Encode(IdentityCodec, v) == Ok(v)
  {
  }

  // ---------------------------------------------------------------- the table

  /** One entry of the table: the reported attributes and the converters. */
  datatype FieldDescriptor = FieldDescriptor(
    name: string, dataType: string, editType: string, expression: Option<string>, codec: Codec)

  type FieldTable = map<string, FieldDescriptor>

  /** The fields MCWS does not report but the library adds itself. */
  const KeyField: FieldDescriptor :=
    FieldDescriptor("Key", "Integer", "Not editable", None, IntegerCodec)
  const ReadableDateField: FieldDescriptor :=
    FieldDescriptor("Date (readable)", "String", "Not editable", None, IdentityCodec)

  const SyntheticFields: FieldTable :=
    map["Key" := KeyField, "Date (readable)" := ReadableDateField]

  /** The entry for one reported `<Field>` element; KeyError for a missing attribute. */
  function Describe(item: Element): (r: Outcome<FieldDescriptor>)
    ensures r.Ok? <==> "Name" in item.attrib && "DataType" in item.attrib && "EditType" in item.attrib
  {
    if "Name" !in item.attrib then Err(KeyError("Name"))
    else if "DataType" !in item.attrib then Err(KeyError("DataType"))
    else if "EditType" !in item.attrib then Err(KeyError("EditType"))
    else
      var dataType := item.attrib["DataType"];
      var expression := if "Expression" in item.attrib then Some(item.attrib["Expression"]) else None;
      Ok(FieldDescriptor(item.attrib["Name"], dataType, item.attrib["EditType"], expression,
                         CodecFor(dataType)))
  }

  /** The table after the reported fields, first to last; a later entry replaces an earlier one. */
  function FieldTableOf(items: seq<Element>): Outcome<FieldTable>
    decreases |items|
  {
    if items == [] then Ok(SyntheticFields)
    else
      var table :- FieldTableOf(items[..|items| - 1]);
      var field :- Describe(items[|items| - 1]);
      Ok(table[field.name := field])
  }

  /** `library.fields` on a reply: its HTTPError, or the table built from its body. */
  function FieldsReply(response: Response): Outcome<FieldTable>
  {
    var _ :- RaiseForStatus(response);
    FieldTableOf(response.body)
  }

  /** `fields` applied to the reply of `Library/Fields`. */
  method BuildFieldTable(response: Response) returns (r: Outcome<FieldTable>)
    ensures r == FieldsReply(response)
  {
    var _ :- RaiseForStatus(response);
    var result := SyntheticFields;
    for i := 0 to |response.body|
      invariant FieldTableOf(response.body[..i]) == Ok(result)
    {
      var item := response.body[i];
      assert response.body[..i + 1][..i] == response.body[..i];
      if "Name" !in item.attrib {
        FieldTableErrorPersists(response.body, i + 1);
        return Err(KeyError("Name"));
      }
      var name := item.attrib["Name"];
      if "DataType" !in item.attrib {
        FieldTableErrorPersists(response.body, i + 1);
        return Err(KeyError("DataType"));
      }
      var dataType := item.attrib["DataType"];
      if "EditType" !in item.attrib {
        FieldTableErrorPersists(response.body, i + 1);
        return Err(KeyError("EditType"));
      }
      var expression: Option<string> := None;
      if "Expression" in item.attrib {
        expression := Some(item.attrib["Expression"]);
      }
      result := result[name := FieldDescriptor(name, dataType, item.attrib["EditType"], expression,
                                               CodecFor(dataType))];
    }
    assert response.body[..|response.body|] == response.body;
    return Ok(result);
  }

  /** Once a prefix of the reply fails, the whole reply fails the same way. */
  lemma {:induction false} FieldTableErrorPersists(items: seq<Element>, j: nat)
    requires j <= |items| && FieldTableOf(items[..j]).Err?
    ensures FieldTableOf(items) == FieldTableOf(items[..j])
    decreases |items| - j
  {
    if j < |items| {
      assert items[..j + 1][..j] == items[..j];
      FieldTableErrorPersists(items, j + 1);
    } else {
      assert items[..j] == items;
    }
  }

  /**
   * What the table holds: `Key` and `Date (readable)` are always present; every other name
   * is a reported one; a reported field is described by its last element, and a synthetic
   * field that MCWS does not report keeps its built-in description.
   */
  lemma FieldTableContents(items: seq<Element>)
    requires FieldTableOf(items).Ok?
    ensures var t := FieldTableOf(items).value;
      "Key" in t && "Date (readable)" in t
      && (forall n :: n in t ==> (n in SyntheticFields || exists i :: Reports(items, i, n)))
      && (forall i, n :: LastNamed(items, i, n) ==> n in t && Describe(items[i]) == Ok(t[n]))
      && (forall n :: n in SyntheticFields && (forall i :: !Reports(items, i, n)) ==>
            t[n] == SyntheticFields[n])
  {
    FieldTableNames(items);
    FieldTableLastWins(items);
    FieldTableKeepsSynthetic(items);
  }

  /** One more reported field: the table so far, updated under the field's name. */
  lemma FieldTableStep(items: seq<Element>)
    requires items != [] && FieldTableOf(items).Ok?
    ensures FieldTableOf(items[..|items| - 1]).Ok? && Describe(items[|items| - 1]).Ok?
    ensures var field := Describe(items[|items| - 1]).value;
      && field.name == items[|items| - 1].attrib["Name"]
      && FieldTableOf(items).value == FieldTableOf(items[..|items| - 1]).value[field.name := field]
  {
  }

  lemma {:induction false} FieldTableNames(items: seq<Element>)
    requires FieldTableOf(items).Ok?
    ensures var t := FieldTableOf(items).value;
      "Key" in t && "Date (readable)" in t
      && (forall n :: n in t ==> (n in SyntheticFields || exists i :: Reports(items, i, n)))
    decreases |items|
  {
    if items != [] {
      var front := items[..|items| - 1];
      FieldTableStep(items);
      FieldTableNames(front);
      var t := FieldTableOf(items).value;
      var name := Describe(items[|items| - 1]).value.name;
      forall n | n in t ensures n in SyntheticFields || exists i :: Reports(items, i, n) {
        if n == name {
          assert Reports(items, |items| - 1, n);
        } else if n !in SyntheticFields {
          var i :| Reports(front, i, n);
          assert Reports(items, i, n);
        }
      }
    }
  }

  lemma {:induction false} FieldTableLastWins(items: seq<Element>)
    requires FieldTableOf(items).Ok?
    ensures var t := FieldTableOf(items).value;
      forall i, n :: LastNamed(items, i, n) ==> n in t && Describe(items[i]) == Ok(t[n])
    decreases |items|
  {
    if items != [] {
      var front := items[..|items| - 1];
      FieldTableStep(items);
      FieldTableLastWins(front);
      forall i, n | LastNamed(items, i, n)
        ensures n in FieldTableOf(items).value && Describe(items[i]) == Ok(FieldTableOf(items).value[n])
      {
        if i < |items| - 1 {
          assert !Reports(items, |items| - 1, n);
          forall j | i < j < |front| ensures !Reports(front, j, n) {
            assert !Reports(items, j, n);
          }
          assert LastNamed(front, i, n);
        }
      }
    }
  }

  lemma {:induction false} FieldTableKeepsSynthetic(items: seq<Element>)
    requires FieldTableOf(items).Ok?
    ensures var t := FieldTableOf(items).value;
      forall n :: n in SyntheticFields && (forall i :: !Reports(items, i, n)) ==> n in t && t[n] == SyntheticFields[n]
    decreases |items|
  {
    if items != [] {
      var front := items[..|items| - 1];
      FieldTableStep(items);
      FieldTableKeepsSynthetic(front);
      forall n | n in SyntheticFields && (forall i :: !Reports(items, i, n))
        ensures n in FieldTableOf(items).value && FieldTableOf(items).value[n] == SyntheticFields[n]
      {
        assert !Reports(items, |items| - 1, n);
        forall i | 0 <= i < |front| ensures !Reports(front, i, n) {
          assert !Reports(items, i, n);
        }
      }
    }
  }
}
