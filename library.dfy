/**
 * The library calls of MCWS (pymcws/api/library.py). Each call sends one request through the
 * media server and decodes the reply; the model states the request a call sends and decodes
 * the reply it is given.
 */
module Library {
  import opened Wrappers
  import opened Exceptions
  import opened Strings
  import opened Values
  import opened Dicts
  import opened Http
  import opened FieldCodecs
  import opened Model
  import opened Utils

  // ---------------------------------------------------------------- get_list

  /** `get_list` asks for `Library/List` without a payload. */
  const ListRequest: Request := Request("Library/List", None)

  /** `header[key] = int(header[key])`. */
  function CastHeaderField(header: Dict<Value>, key: string): Outcome<Dict<Value>>
  {
    var v :- Lookup(header, key);
    var i :- PyInt(v);
    Ok(Put(header, key, Int(i)))
  }

  /** The loop body for library `g`: `Loaded` becomes a bool, `ID` the library's index. */
  function MarkLibrary(library: Dict<Value>, g: nat): Outcome<Dict<Value>>
  {
    var loaded :- Lookup(library, "Loaded");
    Ok(Put(Put(library, "Loaded", Bool(PyEq(loaded, Str("1")))), "ID", Int(g)))
  }

  /** The loop over `result[1:]`, first to last: the first library without `Loaded` raises. */
  function MarkLibraries(libraries: seq<Dict<Value>>): Outcome<seq<Dict<Value>>>
    decreases |libraries|
  {
    if libraries == [] then Ok([])
    else
      var front :- MarkLibraries(libraries[..|libraries| - 1]);
      var last :- MarkLibrary(libraries[|libraries| - 1], |libraries| - 1);
      Ok(front + [last])
  }

  /**
   * `get_list(include_header)` on the reply's body: a header of two entries, then groups of
   * three entries per library. `indexed` chooses the group counter of the decoder: false is
   * the source's, which is never advanced, true advances it once per group.
   */
  function LibraryListWith(body: seq<Element>, includeHeader: bool, indexed: bool): (r: Outcome<seq<Dict<Value>>>)
    ensures r.Ok? && includeHeader ==> |r.value| >= 1
  {
    var result :- SemistructuredReply(body, 2, "Library", 3, indexed);
    var header :- CastHeaderField(result[0], "DefaultLibrary");
    var header' :- CastHeaderField(header, "NumberOfLibraries");
    var libraries :- MarkLibraries(result[1..]);
    if includeHeader then Ok([header'] + libraries) else Ok(libraries)
  }

  /** `get_list` as written, whose decoder cuts `prefix + "0"` from every group's keys. */
  function LibraryList(body: seq<Element>, includeHeader: bool): (r: Outcome<seq<Dict<Value>>>)
    ensures r.Ok? && includeHeader ==> |r.value| >= 1
  {
    LibraryListWith(body, includeHeader, false)
  }

  /** `get_list` with the group counter advanced per library. */
  function LibraryListIntended(body: seq<Element>, includeHeader: bool): (r: Outcome<seq<Dict<Value>>>)
    ensures r.Ok? && includeHeader ==> |r.value| >= 1
  {
    LibraryListWith(body, includeHeader, true)
  }

  /**
   * With at most ten libraries (a reply of at most 2 + 3 * 10 entries) the counter that is
   * never advanced makes no difference: `get_list` returns what the corrected one would.
   */
  lemma TenLibrariesAgree(body: seq<Element>, includeHeader: bool)
    requires Unstructured(body, false).Ok? ==> |Unstructured(body, false).value| <= 32
    ensures LibraryList(body, includeHeader) == LibraryListIntended(body, includeHeader)
  {
    if Unstructured(body, false).Ok? {
      var items := Unstructured(body, false).value;
      var h := if 2 <= |items| then 2 else |items|;
      ChunkCount(items[h..], 3);
      AgreesUpToTenGroups(items, 2, "Library", 3);
    }
  }

  /** `get_list` applied to the reply of `Library/List`. */
  method GetList(response: Response, includeHeader: bool) returns (r: Outcome<seq<Dict<Value>>>)
    ensures r == LibraryList(response.body, includeHeader)
  {
    var result :- TransformSemistructuredResponse(response, 2, "Library", 3, false);
    var header :- CastHeaderField(result[0], "DefaultLibrary");
    header :- CastHeaderField(header, "NumberOfLibraries");
    var libraries :- MarkAll(result[1..]);
    result := [header] + libraries;
    if !includeHeader {
      result := result[1..];
    }
    return Ok(result);
  }

  /** The loop of `get_list` over `result[1:]`, numbering the libraries from 0. */
  method MarkAll(groups: seq<Dict<Value>>) returns (r: Outcome<seq<Dict<Value>>>)
    ensures r == MarkLibraries(groups)
  {
    var libraries := groups;
    var i := 0;
    for g := 0 to |libraries|
      invariant |libraries| == |groups| && i == g
      invariant forall m :: 0 <= m < g ==> MarkLibrary(groups[m], m).Ok?
      invariant forall m :: 0 <= m < g ==> libraries[m] == MarkLibrary(groups[m], m).value
      invariant forall m :: g <= m < |libraries| ==> libraries[m] == groups[m]
    {
      var library := libraries[g];
      var loaded := Lookup(library, "Loaded");
      if loaded.Err? {
        MarkLibrariesFirstError(groups, g);
        return Err(loaded.error);
      }
      library := Put(library, "Loaded", Bool(PyEq(loaded.value, Str("1"))));
      library := Put(library, "ID", Int(i));
      libraries := libraries[g := library];
      i := i + 1;
    }
    MarkLibrariesOk(groups);
    assert libraries == MarkLibraries(groups).value;
    return Ok(libraries);
  }

  lemma {:induction false} MarkLibrariesOk(libraries: seq<Dict<Value>>)
    requires forall m :: 0 <= m < |libraries| ==> MarkLibrary(libraries[m], m).Ok?
    ensures MarkLibraries(libraries).Ok? && |MarkLibraries(libraries).value| == |libraries|
    ensures forall m :: 0 <= m < |libraries| ==>
      MarkLibraries(libraries).value[m] == MarkLibrary(libraries[m], m).value
    decreases |libraries|
  {
    if libraries != [] {
      var front := libraries[..|libraries| - 1];
      assert forall m :: 0 <= m < |front| ==> front[m] == libraries[m];
      MarkLibrariesOk(front);
    }
  }

  lemma {:induction false} MarkLibrariesErrorPersists(libraries: seq<Dict<Value>>, j: nat)
    requires j <= |libraries| && MarkLibraries(libraries[..j]).Err?
    ensures MarkLibraries(libraries) == MarkLibraries(libraries[..j])
    decreases |libraries| - j
  {
    if j < |libraries| {
      assert libraries[..j + 1][..j] == libraries[..j];
      MarkLibrariesErrorPersists(libraries, j + 1);
    } else {
      assert libraries[..j] == libraries;
    }
  }

  /** The first library without `Loaded` decides the error. */
  lemma MarkLibrariesFirstError(libraries: seq<Dict<Value>>, j: nat)
    requires j < |libraries| && forall m :: 0 <= m < j ==> MarkLibrary(libraries[m], m).Ok?
    requires MarkLibrary(libraries[j], j).Err?
    ensures MarkLibraries(libraries) == Err(KeyError("Loaded"))
  {
    var front := libraries[..j];
    assert forall m :: 0 <= m < |front| ==> front[m] == libraries[m];
    MarkLibrariesOk(front);
    var upTo := libraries[..j + 1];
    assert upTo[..|upTo| - 1] == front && upTo[|upTo| - 1] == libraries[j];
    assert MarkLibraries(upTo) == Err(KeyError("Loaded"));
    MarkLibrariesErrorPersists(libraries, j + 1);
  }

  /** `v == "1"` compares as plain equality: a text is never equal to a bool or an int. */
  lemma PyEqText(v: Value, t: string)
    ensures PyEq(v, Str(t)) == (v == Str(t))
  {
  }

  lemma MarkLibraryKeys(library: Dict<Value>, g: nat)
    requires "Loaded" in Keys(library)
    ensures Keys(MarkLibrary(library, g).value)
         == Keys(library) + (if "ID" in Keys(library) then [] else ["ID"])
  {
    var loaded := Get(library, "Loaded").value;
    var l1 := Put(library, "Loaded", Bool(PyEq(loaded, Str("1"))));
    KeysPut(library, "Loaded", Bool(PyEq(loaded, Str("1"))));
    KeysPut(l1, "ID", Int(g));
  }

  lemma MarkLibraryGet(library: Dict<Value>, g: nat, k: string)
    requires "Loaded" in Keys(library)
    ensures Get(MarkLibrary(library, g).value, k)
         == if k == "ID" then Some(Int(g))
            else if k == "Loaded" then Some(Bool(Get(library, "Loaded") == Some(Str("1"))))
            else Get(library, k)
  {
    var loaded := Get(library, "Loaded").value;
    PyEqText(loaded, "1");
    var l1 := Put(library, "Loaded", Bool(PyEq(loaded, Str("1"))));
    GetPut(library, "Loaded", Bool(PyEq(loaded, Str("1"))), k);
    GetPut(l1, "ID", Int(g), k);
  }

  /**
   * What the loop does to one library: it fails exactly when `Loaded` is missing; otherwise
   * `Loaded` becomes True exactly when it was the text "1", `ID` is set to the library's
   * index (appended when new), and every other entry is left as it was.
   */
  lemma MarkLibraryEffect(library: Dict<Value>, g: nat)
    ensures MarkLibrary(library, g).Ok? <==> "Loaded" in Keys(library)
    ensures MarkLibrary(library, g).Err? ==> MarkLibrary(library, g).error == KeyError("Loaded")
    ensures MarkLibrary(library, g).Ok? ==>
      var m := MarkLibrary(library, g).value;
      Keys(m) == Keys(library) + (if "ID" in Keys(library) then [] else ["ID"])
      && Get(m, "ID") == Some(Int(g))
      && Get(m, "Loaded") == Some(Bool(Get(library, "Loaded") == Some(Str("1"))))
      && forall k :: k != "ID" && k != "Loaded" ==> Get(m, k) == Get(library, k)
  {
    if "Loaded" in Keys(library) {
      MarkLibraryKeys(library, g);
      forall k ensures Get(MarkLibrary(library, g).value, k)
         == if k == "ID" then Some(Int(g))
            else if k == "Loaded" then Some(Bool(Get(library, "Loaded") == Some(Str("1"))))
            else Get(library, k)
      {
        MarkLibraryGet(library, g, k);
      }
    }
  }

  /**
   * `header[key] = int(header[key])` fails with KeyError when the key is missing and with
   * `int`'s error when its value is not an integer; otherwise it replaces that value by the
   * integer, in place, and leaves every other entry alone.
   */
  lemma CastHeaderFieldEffect(header: Dict<Value>, key: string)
    ensures CastHeaderField(header, key).Ok? <==> key in Keys(header) && PyInt(Get(header, key).value).Ok?
    ensures key !in Keys(header) ==> CastHeaderField(header, key) == Err(KeyError(key))
    ensures CastHeaderField(header, key).Ok? ==>
      var h := CastHeaderField(header, key).value;
      Keys(h) == Keys(header)
      && Get(h, key) == Some(Int(PyInt(Get(header, key).value).value))
      && forall k :: k != key ==> Get(h, k) == Get(header, k)
  {
    if CastHeaderField(header, key).Ok? {
      var i := PyInt(Get(header, key).value).value;
      KeysPut(header, key, Int(i));
      forall k ensures Get(Put(header, key, Int(i)), k) == if k == key then Some(Int(i)) else Get(header, k) {
        GetPut(header, key, Int(i), k);
      }
    }
  }

  /** Without the header the list is the list with the header minus its first element. */
  lemma HeaderDropped(body: seq<Element>)
    ensures LibraryList(body, false).Ok? <==> LibraryList(body, true).Ok?
    ensures LibraryList(body, true).Ok? ==>
      LibraryList(body, false).value == LibraryList(body, true).value[1..]
    ensures LibraryList(body, true).Err? ==> LibraryList(body, false) == LibraryList(body, true)
  {
    if LibraryList(body, true).Ok? {
      var l := LibraryList(body, true).value;
      assert l == [l[0]] + LibraryList(body, false).value;
    }
  }

  /** The header of the decoded list holds exactly `DefaultLibrary` and `NumberOfLibraries`, as integers. */
  lemma ListHeader(body: seq<Element>)
    requires LibraryList(body, true).Ok?
    ensures var r := LibraryList(body, true).value;
      |r[0]| == 2
      && Get(r[0], "DefaultLibrary").Some? && Get(r[0], "DefaultLibrary").value.Int?
      && Get(r[0], "NumberOfLibraries").Some? && Get(r[0], "NumberOfLibraries").value.Int?
  {
    var items := Unstructured(body, false).value;
    NamedTextsDistinct(body);
    var s := Semistructured(items, 2, "Library", 3, false).value;
    SemistructuredShape(items, 2, "Library", 3, false);
    var h := if 2 <= |items| then 2 else |items|;
    assert |s[0]| <= 2 by {
      assert s[0] == items[..h];
    }
    CastHeaderFieldEffect(s[0], "DefaultLibrary");
    var h1 := CastHeaderField(s[0], "DefaultLibrary").value;
    CastHeaderFieldEffect(h1, "NumberOfLibraries");
    var h2 := CastHeaderField(h1, "NumberOfLibraries").value;
    assert h2 == LibraryList(body, true).value[0];
    assert |h2| == |Keys(h2)| <= 2;
    assert "DefaultLibrary" in Keys(h2) && "NumberOfLibraries" in Keys(h2);
  }

  /**
   * Element `g` of the decoded list, past the header, is element `g` of the decoded reply
   * passed through the loop body with index `g - 1`.
   */
  lemma ListLibraries(body: seq<Element>)
    requires LibraryList(body, true).Ok?
    ensures var s := SemistructuredReply(body, 2, "Library", 3, false).value;
      var r := LibraryList(body, true).value;
      |r| == |s| && forall g :: 1 <= g < |r| ==> MarkLibrary(s[g], g - 1) == Ok(r[g])
  {
    var s := SemistructuredReply(body, 2, "Library", 3, false).value;
    var header := CastHeaderField(CastHeaderField(s[0], "DefaultLibrary").value, "NumberOfLibraries").value;
    var marked := MarkLibraries(s[1..]).value;
    var r := LibraryList(body, true).value;
    assert r == [header] + marked;
    MarkLibrariesShape(s[1..]);
    forall g | 1 <= g < |r| ensures MarkLibrary(s[g], g - 1) == Ok(r[g]) {
      var m := g - 1;
      assert r[g] == marked[m];
      assert s[1..][m] == s[g];
      assert MarkLibrary(s[1..][m], m).Ok? && marked[m] == MarkLibrary(s[1..][m], m).value;
    }
  }

  /** A successful loop passed every library through its own loop body. */
  lemma {:induction false} MarkLibrariesShape(libraries: seq<Dict<Value>>)
    requires MarkLibraries(libraries).Ok?
    ensures |MarkLibraries(libraries).value| == |libraries|
    ensures forall m :: 0 <= m < |libraries| ==>
      MarkLibrary(libraries[m], m).Ok? && MarkLibraries(libraries).value[m] == MarkLibrary(libraries[m], m).value
    decreases |libraries|
  {
    if libraries != [] {
      var front := libraries[..|libraries| - 1];
      MarkLibrariesShape(front);
      assert forall m :: 0 <= m < |front| ==> front[m] == libraries[m];
    }
  }

  // ---------------------------------------------------------------- get_default

  /**
   * `get_default`: element `DefaultLibrary + 1` of the list with its header, with Python's
   * negative indexing, and `id` set to the default's number.
   */
  function DefaultLibrary(body: seq<Element>): Outcome<Dict<Value>>
  {
    var libraries :- LibraryList(body, true);
    DefaultOf(libraries)
  }

  /** The pick of `get_default` from the list with its header. */
  function DefaultOf(libraries: seq<Dict<Value>>): Outcome<Dict<Value>>
    requires |libraries| >= 1
  {
    var defaultId :- Lookup(libraries[0], "DefaultLibrary");
    match defaultId
    case Int(d) =>
      var result :- PyIndex(libraries, d + 1);
      Ok(Put(result, "id", Int(d)))
    case _ => Err(TypeError)
  }

  /**
   * On a decoded reply the header's `DefaultLibrary` is an integer, and `get_default`
   * makes its pick (DefaultPick) from the list with its header.
   */
  lemma DefaultIndexing(body: seq<Element>)
    requires LibraryList(body, true).Ok?
    ensures var r := LibraryList(body, true).value;
      && Get(r[0], "DefaultLibrary").Some? && Get(r[0], "DefaultLibrary").value.Int?
      && DefaultLibrary(body) == DefaultOf(r)
  {
    ListHeader(body);
  }

  /**
   * Which element `get_default` picks: with the header's `DefaultLibrary` an integer `d`,
   * the call returns element `d + 1` of the list with its header, with `id` set to `d`; -1
   * picks the header itself and other negative numbers count from the end; beyond either
   * end the call raises IndexError.
   */
  lemma DefaultPick(r: seq<Dict<Value>>)
    requires |r| >= 1 && Get(r[0], "DefaultLibrary").Some? && Get(r[0], "DefaultLibrary").value.Int?
    ensures var d := Get(r[0], "DefaultLibrary").value.i;
      var def := DefaultOf(r);
      (def.Ok? <==> -|r| - 1 <= d < |r| - 1)
      && (def.Err? ==> def.error == IndexError(d + 1))
      && (-1 <= d < |r| - 1 ==> def.value == Put(r[d + 1], "id", Int(d)))
      && (-|r| - 1 <= d < -1 ==> def.value == Put(r[|r| + d + 1], "id", Int(d)))
  {
    var d := Get(r[0], "DefaultLibrary").value.i;
    assert Lookup(r[0], "DefaultLibrary") == Ok(Int(d));
  }

  /** test_library.py: the default library's `ID` is the header's `DefaultLibrary`, and so is its `id`. */
  lemma DefaultNamedByHeader(body: seq<Element>)
    requires LibraryList(body, true).Ok?
    requires var r := LibraryList(body, true).value;
      var header := Get(r[0], "DefaultLibrary");
      header.Some? && header.value.Int? && 0 <= header.value.i < |r| - 1
    ensures DefaultLibrary(body).Ok?
    ensures var r := LibraryList(body, true).value;
      Get(DefaultLibrary(body).value, "ID") == Get(r[0], "DefaultLibrary")
      && Get(DefaultLibrary(body).value, "id") == Get(r[0], "DefaultLibrary")
  {
    DefaultIndexing(body);
    ListLibraries(body);
    var s := SemistructuredReply(body, 2, "Library", 3, false).value;
    MarkedListDefault(LibraryList(body, true).value, s);
  }

  /** The pick from a list whose libraries were numbered by the loop carries the default's number. */
  lemma MarkedListDefault(r: seq<Dict<Value>>, s: seq<Dict<Value>>)
    requires |r| == |s| >= 1 && forall g :: 1 <= g < |r| ==> MarkLibrary(s[g], g - 1) == Ok(r[g])
    requires var header := Get(r[0], "DefaultLibrary");
      header.Some? && header.value.Int? && 0 <= header.value.i < |r| - 1
    ensures DefaultOf(r).Ok?
    ensures Get(DefaultOf(r).value, "ID") == Get(r[0], "DefaultLibrary")
    ensures Get(DefaultOf(r).value, "id") == Get(r[0], "DefaultLibrary")
  {
    DefaultPick(r);
    var d := Get(r[0], "DefaultLibrary").value.i;
    var picked := Put(r[d + 1], "id", Int(d));
    assert DefaultOf(r) == Ok(picked);
    assert MarkLibrary(s[d + 1], d) == Ok(r[d + 1]);
    MarkedDefault(s[d + 1], d, r[d + 1]);
    assert Get(r[0], "DefaultLibrary") == Some(Int(d));
  }

  lemma MarkedDefault(group: Dict<Value>, d: nat, library: Dict<Value>)
    requires MarkLibrary(group, d) == Ok(library)
    ensures Get(Put(library, "id", Int(d)), "ID") == Some(Int(d))
    ensures Get(Put(library, "id", Int(d)), "id") == Some(Int(d))
  {
    MarkLibraryGet(group, d, "ID");
    GetPut(library, "id", Int(d), "ID");
    GetPut(library, "id", Int(d), "id");
  }

  // ---------------------------------------------------------------- get_loaded

  /** The first library whose `Loaded` is true; KeyError or the truth test's error first. */
  function FirstLoaded(libraries: seq<Dict<Value>>): Outcome<Option<Dict<Value>>>
    decreases |libraries|
  {
    if libraries == [] then Ok(None)
    else
      var loaded :- Lookup(libraries[0], "Loaded");
      var truth :- Truthy(loaded);
      if truth then Ok(Some(libraries[0])) else FirstLoaded(libraries[1..])
  }

  /** The loop of `get_loaded` over the list `get_list` returned (without its header). */
  method GetLoaded(libraries: seq<Dict<Value>>) returns (r: Outcome<Option<Dict<Value>>>)
    ensures r == FirstLoaded(libraries)
  {
    for g := 0 to |libraries|
      invariant FirstLoaded(libraries[g..]) == FirstLoaded(libraries)
    {
      assert libraries[g..][1..] == libraries[g + 1..];
      var library := libraries[g];
      var loaded :- Lookup(library, "Loaded");
      var truth :- Truthy(loaded);
      if truth {
        return Ok(Some(library));
      }
    }
    return Ok(None);
  }

  /**
   * The search over libraries whose `Loaded` is a bool never fails; it finds a library
   * exactly when one is loaded, and then the first loaded one.
   */
  lemma {:induction false} FirstLoadedIsFirst(libraries: seq<Dict<Value>>)
    requires forall g :: 0 <= g < |libraries| ==>
      Get(libraries[g], "Loaded").Some? && Get(libraries[g], "Loaded").value.Bool?
    ensures FirstLoaded(libraries).Ok?
    ensures FirstLoaded(libraries).value.None? <==>
      forall g :: 0 <= g < |libraries| ==> Get(libraries[g], "Loaded") == Some(Bool(false))
    ensures FirstLoaded(libraries).value.Some? ==>
      exists g :: 0 <= g < |libraries| && FirstLoaded(libraries).value.value == libraries[g]
        && Get(libraries[g], "Loaded") == Some(Bool(true))
        && forall m :: 0 <= m < g ==> Get(libraries[m], "Loaded") == Some(Bool(false))
    decreases |libraries|
  {
    if libraries != [] {
      var rest := libraries[1..];
      assert forall g :: 0 <= g < |rest| ==> rest[g] == libraries[g + 1];
      FirstLoadedIsFirst(rest);
      if Get(libraries[0], "Loaded") == Some(Bool(false)) {
        if FirstLoaded(rest).value.Some? {
          var g :| 0 <= g < |rest| && FirstLoaded(rest).value.value == rest[g]
            && Get(rest[g], "Loaded") == Some(Bool(true))
            && forall m :: 0 <= m < g ==> Get(rest[m], "Loaded") == Some(Bool(false));
          assert libraries[g + 1] == rest[g];
          assert forall m :: 0 <= m < g + 1 ==> Get(libraries[m], "Loaded") == Some(Bool(false)) by {
            forall m | 0 <= m < g + 1 ensures Get(libraries[m], "Loaded") == Some(Bool(false)) {
              if m > 0 {
                assert libraries[m] == rest[m - 1];
              }
            }
          }
        } else {
          forall g | 0 <= g < |libraries| ensures Get(libraries[g], "Loaded") == Some(Bool(false)) {
            if g > 0 {
              assert libraries[g] == rest[g - 1];
            }
          }
        }
      }
    }
  }

  /** `get_loaded` on a decoded reply never fails and returns the first loaded library. */
  lemma LoadedOfList(body: seq<Element>)
    requires LibraryList(body, false).Ok?
    ensures var libraries := LibraryList(body, false).value;
      FirstLoaded(libraries).Ok?
      && (FirstLoaded(libraries).value.Some? ==>
            Get(FirstLoaded(libraries).value.value, "Loaded") == Some(Bool(true)))
  {
    HeaderDropped(body);
    ListLibraries(body);
    var r := LibraryList(body, true).value;
    var s := SemistructuredReply(body, 2, "Library", 3, false).value;
    var libraries: seq<Dict<Value>> := LibraryList(body, false).value;
    forall g | 0 <= g < |libraries|
      ensures Get(libraries[g], "Loaded").Some? && Get(libraries[g], "Loaded").value.Bool?
    {
      assert libraries[g] == r[g + 1];
      assert MarkLibrary(s[g + 1], g) == Ok(r[g + 1]);
      MarkLibraryEffect(s[g + 1], g);
    }
    FirstLoadedIsFirst(libraries);
  }

  // ---------------------------------------------------------------- values

  /** The `field` argument of `values`: None, a comma-separated text, or a list of names. */
  datatype FieldSelection = DefaultFields | FieldText(text: string) | FieldNames(names: seq<string>)

  function OptionalText(t: Option<string>): Value
  {
    match t
    case None => Null
    case Some(s) => Str(s)
  }

  /** The request `values` sends; a list of fields is joined with commas. */
  function ValuesRequest(filter: Option<string>, field: FieldSelection, query: Option<string>,
                         limit: Option<string>, version: int): Request
  {
    var fieldValue := match field
      case DefaultFields => Null
      case FieldText(t) => Str(t)
      case FieldNames(names) => Str(Join(names, ","));
    Request("Library/Values", Some([("Filter", OptionalText(filter)), ("Field", fieldValue),
                                    ("Files", OptionalText(query)), ("Limit", OptionalText(limit)),
                                    ("Version", Int(version))]))
  }

  /**
   * The payload holds the five parameters in order; a list of field names travels as one
   * text that splits back into the same names when no name contains a comma.
   */
  lemma ValuesFieldList(filter: Option<string>, names: seq<string>, query: Option<string>,
                        limit: Option<string>, version: int)
    requires |names| >= 1 && forall i :: 0 <= i < |names| ==> ',' !in names[i]
    ensures var p := ValuesRequest(filter, FieldNames(names), query, limit, version).payload.value;
      Keys(p) == ["Filter", "Field", "Files", "Limit", "Version"]
      && DistinctKeys(p)
      && Get(p, "Field").value.Str? && Split(Get(p, "Field").value.s, ',') == names
  {
    SplitJoin(names, ',');
    var p := ValuesRequest(filter, FieldNames(names), query, limit, version).payload.value;
    assert Keys(p) == ["Filter", "Field", "Files", "Limit", "Version"];
  }

  /** `values` on the reply of `Library/Values`: its HTTPError, or the text of every child. */
  method LibraryValues(response: Response) returns (r: Outcome<seq<Value>>)
    ensures r.Ok? <==> !(400 <= response.status < 600)
    ensures r.Err? ==> r.error == HttpError(response.status)
    ensures r.Ok? ==> |r.value| == |response.body|
    ensures r.Ok? ==> forall i :: 0 <= i < |r.value| ==> r.value[i] == TextValue(response.body[i])
  {
    var checked :- RaiseForStatus(response);
    var texts := TransformListResponse(checked);
    return Ok(texts);
  }

  // ---------------------------------------------------------------- fields

  /** `fields` asks for `Library/Fields` with an empty payload and decodes the reply with FieldCodecs.BuildFieldTable. */
  const FieldsRequest: Request := Request("Library/Fields", Some([]))
}
