/**
 * Response decoders and string builders (pymcws/utils.py). A reply arrives as the children
 * of its root element; the date helpers live in module Dates.
 */
module Utils {
  import opened Wrappers
  import opened Exceptions
  import opened Strings
  import opened Values
  import opened Dicts
  import opened Http
  import opened FieldCodecs
  import opened Model

  // ---------------------------------------------------------------- transform_unstructured_response

  /** `result[child.attrib["Name"]] = child.text` for every child, first to last. */
  function NamedTexts(body: seq<Element>): Outcome<Dict<Value>>
    decreases |body|
  {
    if body == [] then Ok([])
    else
      var front :- NamedTexts(body[..|body| - 1]);
      var child := body[|body| - 1];
      if "Name" in child.attrib then Ok(Put(front, child.attrib["Name"], TextValue(child)))
      else Err(KeyError("Name"))
  }

  /** `int(v)` where it succeeds; a ValueError keeps `v`; any other error is raised. */
  function CastInt(v: Value): Outcome<Value>
  {
    match PyInt(v)
    case Ok(n) => Ok(Int(n))
    case Err(e) => if e.ValueError? then Ok(v) else Err(e)
  }

  /** `result[key] = int(result[key])` for every key in order, ValueError swallowed. */
  function CastInts(d: Dict<Value>): Outcome<Dict<Value>>
    decreases |d|
  {
    if d == [] then Ok([])
    else
      var front :- CastInts(d[..|d| - 1]);
      var v :- CastInt(d[|d| - 1].1);
      Ok(front + [(d[|d| - 1].0, v)])
  }

  /** `transform_unstructured_response(response, try_int_cast)` on the reply's body. */
  function Unstructured(body: seq<Element>, tryIntCast: bool): Outcome<Dict<Value>>
  {
    var d :- NamedTexts(body);
    if tryIntCast then CastInts(d) else Ok(d)
  }

  method TransformUnstructuredResponse(response: Response, tryIntCast: bool)
    returns (r: Outcome<Dict<Value>>)
    ensures r == Unstructured(response.body, tryIntCast)
  {
    var body := response.body;
    var result: Dict<Value> := [];
    for i := 0 to |body|
      invariant NamedTexts(body[..i]) == Ok(result)
    {
      var child := body[i];
      assert body[..i + 1][..i] == body[..i];
      if "Name" !in child.attrib {
        NamedTextsErrorPersists(body, i + 1);
        return Err(KeyError("Name"));
      }
      result := Put(result, child.attrib["Name"], TextValue(child));
    }
    assert body[..|body|] == body;
    if tryIntCast {
      NamedTextsContents(body);
      r := CastIntsInPlace(result);
    } else {
      r := Ok(result);
    }
  }

  /** The `try_int_cast` loop of `transform_unstructured_response`, on the decoded dict. */
  method CastIntsInPlace(texts: Dict<Value>) returns (r: Outcome<Dict<Value>>)
    requires DistinctKeys(texts)
    ensures r == CastInts(texts)
  {
    var result := texts;
    for j := 0 to |texts|
      invariant |result| == |texts| && Keys(result) == Keys(texts)
      invariant forall m :: 0 <= m < j ==> CastInt(texts[m].1).Ok?
      invariant forall m :: 0 <= m < j ==> result[m] == (texts[m].0, CastInt(texts[m].1).value)
      invariant forall m :: j <= m < |texts| ==> result[m] == texts[m]
    {
      var key := result[j].0;
      var cast := PyInt(result[j].1);
      if cast.Ok? {
        DistinctByKeys(texts, result);
        PutPresent(result, j, Int(cast.value));
        result := Put(result, key, Int(cast.value));
      } else if !cast.error.ValueError? {
        CastIntsFirstError(texts, j);
        return Err(cast.error);
      }
    }
    CastIntsOk(texts);
    assert forall m :: 0 <= m < |texts| ==> result[m] == CastInts(texts).value[m];
    assert result == CastInts(texts).value;
    return Ok(result);
  }

  /** When every value casts, the result is the pointwise cast. */
  lemma {:induction false} CastIntsOk(d: Dict<Value>)
    requires forall m :: 0 <= m < |d| ==> CastInt(d[m].1).Ok?
    ensures CastInts(d).Ok? && |CastInts(d).value| == |d|
    ensures forall m :: 0 <= m < |d| ==> CastInts(d).value[m] == (d[m].0, CastInt(d[m].1).value)
    decreases |d|
  {
    if d != [] {
      var front := d[..|d| - 1];
      assert forall m :: 0 <= m < |front| ==> front[m] == d[m];
      CastIntsOk(front);
    }
  }

  /** The first value whose cast raises decides the error. */
  lemma CastIntsFirstError(d: Dict<Value>, j: nat)
    requires j < |d| && forall m :: 0 <= m < j ==> CastInt(d[m].1).Ok?
    requires CastInt(d[j].1).Err?
    ensures CastInts(d) == Err(CastInt(d[j].1).error)
  {
    var front := d[..j];
    assert forall m :: 0 <= m < |front| ==> front[m] == d[m];
    CastIntsOk(front);
    assert d[..j + 1][..j] == front;
    CastIntsErrorPersists(d, j + 1);
  }

  lemma {:induction false} NamedTextsErrorPersists(body: seq<Element>, j: nat)
    requires j <= |body| && NamedTexts(body[..j]).Err?
    ensures NamedTexts(body) == NamedTexts(body[..j])
    decreases |body| - j
  {
    if j < |body| {
      assert body[..j + 1][..j] == body[..j];
      NamedTextsErrorPersists(body, j + 1);
    } else {
      assert body[..j] == body;
    }
  }

  lemma {:induction false} CastIntsErrorPersists(d: Dict<Value>, j: nat)
    requires j <= |d| && CastInts(d[..j]).Err?
    ensures CastInts(d) == CastInts(d[..j])
    decreases |d| - j
  {
    if j < |d| {
      assert d[..j + 1][..j] == d[..j];
      CastIntsErrorPersists(d, j + 1);
    } else {
      assert d[..j] == d;
    }
  }

  /** The decoder fails exactly on a child without a Name attribute. */
  lemma {:induction false} NamedTextsFails(body: seq<Element>)
    ensures NamedTexts(body).Ok? <==> forall i :: 0 <= i < |body| ==> "Name" in body[i].attrib
    ensures NamedTexts(body).Err? ==> NamedTexts(body).error == KeyError("Name")
    decreases |body|
  {
    if body != [] {
      var front := body[..|body| - 1];
      NamedTextsFails(front);
      assert forall i :: 0 <= i < |front| ==> front[i] == body[i];
    }
  }

  lemma {:induction false} NamedTextsDistinct(body: seq<Element>)
    requires NamedTexts(body).Ok?
    ensures DistinctKeys(NamedTexts(body).value)
    decreases |body|
  {
    if body != [] {
      var front := body[..|body| - 1];
      var child := body[|body| - 1];
      NamedTextsDistinct(front);
      PutDistinct(NamedTexts(front).value, child.attrib["Name"], TextValue(child));
    }
  }

  /** The keys are exactly the names that occur. */
  lemma {:induction false} NamedTextsKeys(body: seq<Element>)
    requires NamedTexts(body).Ok?
    ensures forall n :: n in Keys(NamedTexts(body).value) <==> exists i :: Reports(body, i, n)
    decreases |body|
  {
    if body != [] {
      var front := body[..|body| - 1];
      var child := body[|body| - 1];
      NamedTextsKeys(front);
      var d0 := NamedTexts(front).value;
      var name := child.attrib["Name"];
      var keys := Keys(NamedTexts(body).value);
      assert NamedTexts(body).value == Put(d0, name, TextValue(child));
      forall n ensures n in keys <==> exists i :: Reports(body, i, n) {
        KeyInPut(d0, name, TextValue(child), n);
        if n == name {
          assert Reports(body, |body| - 1, name);
        } else {
          if exists i :: Reports(body, i, n) {
            var i :| Reports(body, i, n);
            assert Reports(front, i, n);
          }
          if n in Keys(d0) {
            var i :| Reports(front, i, n);
            assert Reports(body, i, n);
          }
        }
      }
    }
  }

  /** A later element with the same Name overwrites an earlier one. */
  lemma {:induction false} NamedTextsLastWins(body: seq<Element>)
    requires NamedTexts(body).Ok?
    ensures forall i, n :: LastNamed(body, i, n) ==> Get(NamedTexts(body).value, n) == Some(TextValue(body[i]))
    decreases |body|
  {
    if body != [] {
      var front := body[..|body| - 1];
      var child := body[|body| - 1];
      NamedTextsLastWins(front);
      var d0 := NamedTexts(front).value;
      var name := child.attrib["Name"];
      forall i, n | LastNamed(body, i, n) ensures Get(NamedTexts(body).value, n) == Some(TextValue(body[i])) {
        GetPut(d0, name, TextValue(child), n);
        if i < |body| - 1 {
          assert !Reports(body, |body| - 1, n);
          forall j | i < j < |front| ensures !Reports(front, j, n) {
            assert !Reports(body, j, n);
          }
          assert Reports(front, i, n);
          assert LastNamed(front, i, n);
        }
      }
    }
  }

  /**
   * Each Name maps to its text in document order: the keys are the names that occur, with
   * no duplicates, and a later element with the same Name overwrites an earlier one.
   */
  lemma NamedTextsContents(body: seq<Element>)
    requires NamedTexts(body).Ok?
    ensures var d := NamedTexts(body).value;
      DistinctKeys(d)
      && (forall n :: n in Keys(d) <==> exists i :: Reports(body, i, n))
      && (forall i, n :: LastNamed(body, i, n) ==> Get(d, n) == Some(TextValue(body[i])))
  {
    NamedTextsDistinct(body);
    NamedTextsKeys(body);
    NamedTextsLastWins(body);
  }

  /**
   * Reading a name back from the decoded reply gives the text of the last element with that
   * name, cast to int where `try_int_cast` asks for it and `int()` accepts the text.
   */
  lemma UnstructuredLastText(body: seq<Element>, tryIntCast: bool, i: int, n: string)
    requires Unstructured(body, tryIntCast).Ok? && LastNamed(body, i, n)
    ensures !tryIntCast ==> Get(Unstructured(body, tryIntCast).value, n) == Some(TextValue(body[i]))
    ensures tryIntCast ==> CastInt(TextValue(body[i])).Ok?
    ensures tryIntCast ==>
      Get(Unstructured(body, tryIntCast).value, n) == Some(CastInt(TextValue(body[i])).value)
  {
    NamedTextsContents(body);
    var d := NamedTexts(body).value;
    if tryIntCast {
      GetIndex(d, n);
      var j :| 0 <= j < |d| && d[j] == (n, TextValue(body[i]));
      CastIntsShape(d);
      CastIntsExact(d);
      var c := CastInts(d).value;
      DistinctByKeys(d, c);
      GetAt(c, j);
    }
  }

  lemma {:induction false} CastIntsShape(d: Dict<Value>)
    requires CastInts(d).Ok?
    ensures |CastInts(d).value| == |d|
    ensures forall i :: 0 <= i < |d| ==>
      CastInt(d[i].1).Ok? && CastInts(d).value[i] == (d[i].0, CastInt(d[i].1).value)
    decreases |d|
  {
    if d != [] {
      var front := d[..|d| - 1];
      CastIntsShape(front);
      assert forall i :: 0 <= i < |front| ==> front[i] == d[i];
    }
  }

  /**
   * With `try_int_cast`, every value that `int()` accepts becomes that integer and every
   * other text stays as it is; the cast fails only on a value `int()` rejects with
   * something other than ValueError (a missing text, whose `int(None)` is a TypeError).
   */
  lemma {:induction false} CastIntsExact(d: Dict<Value>)
    ensures CastInts(d).Ok? <==> forall i :: 0 <= i < |d| ==> CastInt(d[i].1).Ok?
    ensures CastInts(d).Ok? ==> Keys(CastInts(d).value) == Keys(d)
    ensures CastInts(d).Ok? ==> forall i :: 0 <= i < |d| ==>
      CastInts(d).value[i].1 == (if PyInt(d[i].1).Ok? then Int(PyInt(d[i].1).value) else d[i].1)
    decreases |d|
  {
    if d != [] {
      var front := d[..|d| - 1];
      CastIntsExact(front);
      assert forall i :: 0 <= i < |front| ==> front[i] == d[i];
    }
    if CastInts(d).Ok? {
      CastIntsShape(d);
    }
  }

  /** Texts that are integers become integers, others are left alone, None is a TypeError. */
  lemma CastIntOnTexts(t: string)
    ensures CastInt(Str(t)) == Ok(if ParseInt(t).Some? then Int(ParseInt(t).value) else Str(t))
    ensures CastInt(Null) == Err(TypeError)
  {
  }

  // ---------------------------------------------------------------- transform_list_response

  /** `transform_list_response`: the text of every child, in order. */
  method TransformListResponse(response: Response) returns (r: seq<Value>)
    ensures |r| == |response.body|
    ensures forall i :: 0 <= i < |r| ==> r[i] == TextValue(response.body[i])
  {
    r := [];
    for i := 0 to |response.body|
      invariant |r| == i
      invariant forall j :: 0 <= j < i ==> r[j] == TextValue(response.body[j])
    {
      r := r + [TextValue(response.body[i])];
    }
  }

  // ---------------------------------------------------------------- transform_semistructured_response

  /** `d[k] = v` for every pair in order, into an empty dict. */
  function PutAll(pairs: Dict<Value>): Dict<Value>
    decreases |pairs|
  {
    if pairs == [] then []
    else Put(PutAll(pairs[..|pairs| - 1]), pairs[|pairs| - 1].0, pairs[|pairs| - 1].1)
  }

  /** Pairs whose keys are already distinct come through PutAll unchanged. */
  lemma {:induction false} PutAllDistinct(pairs: Dict<Value>)
    requires DistinctKeys(pairs)
    ensures PutAll(pairs) == pairs
    decreases |pairs|
  {
    if pairs != [] {
      var front := pairs[..|pairs| - 1];
      var last := pairs[|pairs| - 1];
      PutAllDistinct(front);
      PutNew(front, last.0, last.1);
      assert front + [last] == pairs;
    }
  }

  /**
   * `item[0][len(group_prefix + tag):]`, or `group_prefix` when nothing is left. Python
   * slices past the end to the empty string.
   */
  function StripGroupKey(name: string, prefix: string, tag: string): string
  {
    var cut := |prefix + tag|;
    var key := if cut <= |name| then name[cut..] else "";
    if |key| == 0 then prefix else key
  }

  /** The pairs of a chunk with their group keys stripped. */
  function Renamed(chunk: Dict<Value>, prefix: string, tag: string): (r: Dict<Value>)
    ensures |r| == |chunk|
    ensures forall m :: 0 <= m < |chunk| ==> r[m] == (StripGroupKey(chunk[m].0, prefix, tag), chunk[m].1)
  {
    seq(|chunk|, m requires 0 <= m < |chunk| => (StripGroupKey(chunk[m].0, prefix, tag), chunk[m].1))
  }

  /** The dict built for one chunk. */
  function Group(chunk: Dict<Value>, prefix: string, tag: string): Dict<Value>
  {
    PutAll(Renamed(chunk, prefix, tag))
  }

  /** The concatenation of a list of chunks. */
  function Flatten(cs: seq<Dict<Value>>): Dict<Value>
  {
    if cs == [] then [] else cs[0] + Flatten(cs[1..])
  }

  /**
   * `[items[i : i + size] for i in range(0, len(items), size)]`: consecutive non-empty
   * chunks that together are `items`, each of `size` pairs except possibly the last.
   */
  function Chunks(items: Dict<Value>, size: nat): (cs: seq<Dict<Value>>)
    requires size > 0
    ensures Flatten(cs) == items
    ensures forall g :: 0 <= g < |cs| ==> 0 < |cs[g]| <= size
    ensures forall g :: 0 <= g < |cs| - 1 ==> |cs[g]| == size
    decreases |items|
  {
    if items == [] then []
    else if |items| <= size then
      assert Flatten([items]) == items + Flatten([]);
      [items]
    else
      var rest := Chunks(items[size..], size);
      assert ([items[..size]] + rest)[1..] == rest;
      assert items[..size] + items[size..] == items;
      [items[..size]] + rest
  }

  /** There are ceil(|items| / size) chunks: the fewest chunks of `size` that hold all items. */
  lemma {:induction false} ChunkCount(items: Dict<Value>, size: nat)
    requires size > 0
    ensures |Chunks(items, size)| == 0 <==> |items| == 0
    ensures |Chunks(items, size)| > 0 ==>
      (|Chunks(items, size)| - 1) * size < |items| <= |Chunks(items, size)| * size
    decreases |items|
  {
    if |items| > size {
      ChunkCount(items[size..], size);
      var n := |Chunks(items[size..], size)|;
      assert |Chunks(items, size)| == n + 1;
      CeilStep(|items|, n, size);
    }
  }

  lemma CeilStep(m: int, n: int, size: int)
    requires (n - 1) * size < m - size <= n * size
    ensures n * size < m <= (n + 1) * size
  {
    assert (n - 1) * size == n * size - size;
    assert (n + 1) * size == n * size + size;
  }

  /**
   * The tag cut from the group keys of chunk `g`: `str(i)` with the counter `i` of the
   * source loop. As written the counter stays 0 (`indexed` false); the evidently intended
   * behaviour counts the chunks (`indexed` true).
   */
  function GroupTag(indexed: bool, g: nat): string
  {
    if indexed then IntToString(g) else IntToString(0)
  }

  /**
   * `transform_semistructured_response` on the decoded pairs: the first `headerItems` pairs
   * form element 0, the rest is cut into chunks of `size`, one dict per chunk. `range`
   * rejects a step of 0 and yields nothing for a negative step.
   */
  function Semistructured(items: Dict<Value>, headerItems: nat, prefix: string, size: int,
                          indexed: bool): Outcome<seq<Dict<Value>>>
  {
    var h := if headerItems <= |items| then headerItems else |items|;
    if size == 0 then Err(ValueError("range() arg 3 must not be zero"))
    else
      var chunks := if size > 0 then Chunks(items[h..], size) else [];
      Ok([PutAll(items[..h])]
         + seq(|chunks|, g requires 0 <= g < |chunks| => Group(chunks[g], prefix, GroupTag(indexed, g))))
  }

  function SemistructuredReply(body: seq<Element>, headerItems: nat, prefix: string, size: int,
                               indexed: bool): (r: Outcome<seq<Dict<Value>>>)
    ensures r.Ok? ==> |r.value| >= 1
  {
    var items :- Unstructured(body, false);
    Semistructured(items, headerItems, prefix, size, indexed)
  }

  /**
   * `transform_semistructured_response`. With `indexed` false this is the source as written,
   * whose group counter is never advanced; with `indexed` true the counter advances once per
   * chunk, as the decoder evidently intends, and that is the variant the library calls use.
   */
  method TransformSemistructuredResponse(response: Response, headerItems: nat, groupPrefix: string,
                                         groupSize: int, indexed: bool)
    returns (r: Outcome<seq<Dict<Value>>>)
    ensures r == SemistructuredReply(response.body, headerItems, groupPrefix, groupSize, indexed)
  {
    var items :- TransformUnstructuredResponse(response, false);
    assert SemistructuredReply(response.body, headerItems, groupPrefix, groupSize, indexed)
        == Semistructured(items, headerItems, groupPrefix, groupSize, indexed);
    var h := if headerItems <= |items| then headerItems else |items|;
    var header := BuildHeader(items[..h]);
    if groupSize == 0 {
      return Err(ValueError("range() arg 3 must not be zero"));
    }
    var chunks := if groupSize > 0 then Chunks(items[h..], groupSize) else [];
    var groups := BuildGroups(chunks, groupPrefix, indexed);
    assert groups == seq(|chunks|, g requires 0 <= g < |chunks| => Group(chunks[g], groupPrefix, GroupTag(indexed, g)));
    return Ok([header] + groups);
  }

  /** The chunk loop of `transform_semistructured_response`: one dict per chunk, in order. */
  method BuildGroups(chunks: seq<Dict<Value>>, groupPrefix: string, indexed: bool)
    returns (groups: seq<Dict<Value>>)
    ensures |groups| == |chunks|
    ensures forall g :: 0 <= g < |chunks| ==> groups[g] == Group(chunks[g], groupPrefix, GroupTag(indexed, g))
  {
    groups := [];
    var i := 0;
    for c := 0 to |chunks|
      invariant |groups| == c
      invariant i == if indexed then c else 0
      invariant forall g :: 0 <= g < c ==> groups[g] == Group(chunks[g], groupPrefix, GroupTag(indexed, g))
    {
      var group := BuildGroup(chunks[c], groupPrefix, IntToString(i));
      groups := groups + [group];
      if indexed {
        i := i + 1;
      }
    }
  }

  /** The header loop of `transform_semistructured_response`: the first pairs, put in order. */
  method BuildHeader(pairs: Dict<Value>) returns (header: Dict<Value>)
    ensures header == PutAll(pairs)
  {
    header := [];
    for j := 0 to |pairs|
      invariant header == PutAll(pairs[..j])
    {
      assert pairs[..j + 1][..j] == pairs[..j];
      header := Put(header, pairs[j].0, pairs[j].1);
    }
    assert pairs[..|pairs|] == pairs;
  }

  /** The inner loop of `transform_semistructured_response`: the dict of one chunk. */
  method BuildGroup(chunk: Dict<Value>, groupPrefix: string, tag: string) returns (group: Dict<Value>)
    ensures group == Group(chunk, groupPrefix, tag)
  {
    group := [];
    ghost var renamed := Renamed(chunk, groupPrefix, tag);
    for m := 0 to |chunk|
      invariant group == PutAll(renamed[..m])
    {
      var key := chunk[m].0;
      var cut := |groupPrefix + tag|;
      key := if cut <= |key| then key[cut..] else "";
      if |key| == 0 {
        key := groupPrefix;
      }
      assert renamed[..m + 1][..m] == renamed[..m];
      assert renamed[m] == (key, chunk[m].1);
      group := Put(group, key, chunk[m].1);
    }
    assert renamed[..|chunk|] == renamed;
  }

  /**
   * The shape of the result: a step of 0 fails; otherwise element 0 is the header, and for a
   * positive step there is one more element per chunk (1 + ceil(rest / size) in all, by
   * ChunkCount), element 1 + g being the dict of chunk g; a negative step yields the header
   * alone.
   */
  lemma SemistructuredShape(items: Dict<Value>, headerItems: nat, prefix: string, size: int,
                            indexed: bool)
    requires DistinctKeys(items)
    ensures Semistructured(items, headerItems, prefix, size, indexed).Err? <==> size == 0
    ensures var h := if headerItems <= |items| then headerItems else |items|;
      var r := Semistructured(items, headerItems, prefix, size, indexed);
      r.Ok? ==> |r.value| >= 1 && r.value[0] == items[..h]
    ensures var h := if headerItems <= |items| then headerItems else |items|;
      size < 0 ==> Semistructured(items, headerItems, prefix, size, indexed) == Ok([items[..h]])
    ensures var h := if headerItems <= |items| then headerItems else |items|;
      var r := Semistructured(items, headerItems, prefix, size, indexed);
      size > 0 ==> |r.value| == 1 + |Chunks(items[h..], size)|
    ensures var h := if headerItems <= |items| then headerItems else |items|;
      var r := Semistructured(items, headerItems, prefix, size, indexed);
      size > 0 ==> forall g :: 0 <= g < |r.value| - 1 ==>
        r.value[g + 1] == Group(Chunks(items[h..], size)[g], prefix, GroupTag(indexed, g))
  {
    var h := if headerItems <= |items| then headerItems else |items|;
    assert DistinctKeys(items[..h]);
    PutAllDistinct(items[..h]);
    if size < 0 {
      var r := Semistructured(items, headerItems, prefix, size, indexed).value;
      assert |r| == 1 && r[0] == items[..h];
      assert r == [items[..h]];
    } else if size > 0 {
      SemistructuredGroups(items, headerItems, prefix, size, indexed);
    }
  }

  /** With a positive step, element 1 + g is the dict of chunk g, and there is one per chunk. */
  lemma SemistructuredGroups(items: Dict<Value>, headerItems: nat, prefix: string, size: int, indexed: bool)
    requires size > 0
    ensures var h := if headerItems <= |items| then headerItems else |items|;
      var r := Semistructured(items, headerItems, prefix, size, indexed).value;
      && |r| == 1 + |Chunks(items[h..], size)|
      && forall g :: 0 <= g < |r| - 1 ==> r[g + 1] == Group(Chunks(items[h..], size)[g], prefix, GroupTag(indexed, g))
  {
    var h := if headerItems <= |items| then headerItems else |items|;
    var chunks := Chunks(items[h..], size);
    var groups := seq(|chunks|, g requires 0 <= g < |chunks| => Group(chunks[g], prefix, GroupTag(indexed, g)));
    var r := Semistructured(items, headerItems, prefix, size, indexed).value;
    assert r == [PutAll(items[..h])] + groups;
    forall g | 0 <= g < |r| - 1
      ensures r[g + 1] == Group(chunks[g], prefix, GroupTag(indexed, g))
    {
      assert r[g + 1] == groups[g];
    }
  }

  /** A chunk whose stripped keys are distinct gives a dict of the chunk's size. */
  lemma GroupSize(chunk: Dict<Value>, prefix: string, tag: string)
    requires DistinctKeys(Renamed(chunk, prefix, tag))
    ensures Group(chunk, prefix, tag) == Renamed(chunk, prefix, tag)
    ensures |Group(chunk, prefix, tag)| == |chunk|
  {
    PutAllDistinct(Renamed(chunk, prefix, tag));
  }

  /**
   * As written, every group key loses its first |prefix| + 1 characters whatever the chunk,
   * and a key with nothing left becomes the prefix.
   */
  lemma AsWrittenStripsOneCharacter(name: string, prefix: string, g: nat)
    ensures StripGroupKey(name, prefix, GroupTag(false, g))
      == if |prefix| + 1 < |name| then name[|prefix| + 1..] else prefix
  {
  }

  /**
   * Header of 2, prefix "Library", groups of 3, two groups: one header dict of 2 keys and
   * two group dicts of 3 keys each, when the stripped keys of a group are distinct.
   */
  lemma LibraryListShape(items: Dict<Value>, indexed: bool)
    requires DistinctKeys(items) && |items| == 2 + 3 * 2
    requires forall g :: 0 <= g < 2 ==>
      DistinctKeys(Renamed(items[2 + 3 * g .. 5 + 3 * g], "Library", GroupTag(indexed, g)))
    ensures var r := Semistructured(items, 2, "Library", 3, indexed);
      r.Ok? && |r.value| == 3 && |r.value[0]| == 2 && |r.value[1]| == 3 && |r.value[2]| == 3
  {
    SemistructuredShape(items, 2, "Library", 3, indexed);
    var rest := items[2..];
    var cs := Chunks(rest, 3);
    assert cs == [rest[..3], rest[3..]] by {
      assert |rest| == 6;
      assert Chunks(rest[3..], 3) == [rest[3..]];
    }
    assert rest[..3] == items[2..5] && rest[3..] == items[5..8];
    GroupSize(cs[0], "Library", GroupTag(indexed, 0));
    GroupSize(cs[1], "Library", GroupTag(indexed, 1));
  }

  /** StripGroupKey depends on the tag through its length only. */
  lemma StripByTagLength(name: string, prefix: string, t1: string, t2: string)
    requires |t1| == |t2|
    ensures StripGroupKey(name, prefix, t1) == StripGroupKey(name, prefix, t2)
  {
  }

  /**
   * With at most ten groups the counter bug is invisible: every index has one digit, like
   * the "0" that is cut instead, so the source and the corrected decoder agree.
   */
  lemma AgreesUpToTenGroups(items: Dict<Value>, headerItems: nat, prefix: string, size: int)
    requires size > 0
    requires var h := if headerItems <= |items| then headerItems else |items|;
      |Chunks(items[h..], size)| <= 10
    ensures Semistructured(items, headerItems, prefix, size, false)
         == Semistructured(items, headerItems, prefix, size, true)
  {
    var h := if headerItems <= |items| then headerItems else |items|;
    var chunks := Chunks(items[h..], size);
    forall g | 0 <= g < |chunks|
      ensures Group(chunks[g], prefix, GroupTag(false, g)) == Group(chunks[g], prefix, GroupTag(true, g))
    {
      SingleDigitGroupAgrees(chunks[g], prefix, g);
    }
    var a := Semistructured(items, headerItems, prefix, size, false).value;
    var b := Semistructured(items, headerItems, prefix, size, true).value;
    assert |a| == |b| && forall g :: 0 <= g < |a| ==> a[g] == b[g];
    assert a == b;
  }

  /** A group whose index has one digit gets the same keys from both counters. */
  lemma SingleDigitGroupAgrees(chunk: Dict<Value>, prefix: string, g: nat)
    requires g < 10
    ensures Group(chunk, prefix, GroupTag(false, g)) == Group(chunk, prefix, GroupTag(true, g))
  {
    NatToStringSingleDigit(0);
    NatToStringSingleDigit(g);
    assert |GroupTag(false, g)| == |GroupTag(true, g)|;
    forall m | 0 <= m < |chunk| {
      StripByTagLength(chunk[m].0, prefix, GroupTag(false, g), GroupTag(true, g));
    }
    assert Renamed(chunk, prefix, GroupTag(false, g)) == Renamed(chunk, prefix, GroupTag(true, g));
  }

  /**
   * From the eleventh group on the source keeps part of the index: "Library10Loaded" becomes
   * "0Loaded" instead of "Loaded" (so `get_list` finds no "Loaded" for that library).
   */
  lemma AsWrittenKeepsIndexTail(prefix: string, g: nat, suffix: string)
    requires g >= 10
    ensures StripGroupKey(prefix + IntToString(g) + suffix, prefix, GroupTag(false, g))
         == IntToString(g)[1..] + suffix
    ensures StripGroupKey(prefix + IntToString(g) + suffix, prefix, GroupTag(false, g)) != suffix
  {
    NatToStringSingleDigit(g);
    var name := prefix + IntToString(g) + suffix;
    assert name[|prefix| + 1..] == IntToString(g)[1..] + suffix;
  }

  /** The counterexample: the key of library 10's Loaded entry. */
  lemma AsWrittenTenthLibrary()
    ensures StripGroupKey("Library10Loaded", "Library", GroupTag(false, 10)) == "0Loaded"
  {
    assert "Library10Loaded"[8..] == "0Loaded";
  }

  /**
   * The corrected decoder cuts the prefix and the chunk's own index: every key comes back
   * as the suffix after "prefix + str(g)", and the bare "prefix + str(g)" as the prefix.
   */
  lemma IndexedStripsIndex(prefix: string, g: nat, suffix: string)
    ensures StripGroupKey(prefix + IntToString(g) + suffix, prefix, GroupTag(true, g))
         == if suffix == "" then prefix else suffix
  {
    var name := prefix + IntToString(g) + suffix;
    assert name[|prefix + IntToString(g)|..] == suffix;
  }

  // ---------------------------------------------------------------- transform_mpl_response

  /** The tags of one item: KeyError for a tag without Name or for a field the table lacks. */
  function ItemTags(fields: FieldTable, tags: seq<Element>): Outcome<Dict<Value>>
    decreases |tags|
  {
    if tags == [] then Ok([])
    else
      var front :- ItemTags(fields, tags[..|tags| - 1]);
      var tag := tags[|tags| - 1];
      if "Name" !in tag.attrib then Err(KeyError("Name"))
      else
        var name := tag.attrib["Name"];
        if name !in fields then Err(KeyError(name))
        else
          var value :- Decode(fields[name].codec, tag.text);
          Ok(Put(front, name, value))
  }

  /** The tag dicts of all items, in order, or the first error. */
  function MplRecords(fields: FieldTable, items: seq<Element>): Outcome<seq<Dict<Value>>>
    decreases |items|
  {
    if items == [] then Ok([])
    else
      var front :- MplRecords(fields, items[..|items| - 1]);
      var tags :- ItemTags(fields, items[|items| - 1].children);
      Ok(front + [tags])
  }

  lemma {:induction false} ItemTagsDistinct(fields: FieldTable, tags: seq<Element>)
    requires ItemTags(fields, tags).Ok?
    ensures DistinctKeys(ItemTags(fields, tags).value)
    decreases |tags|
  {
    if tags != [] {
      ItemTagsDistinct(fields, tags[..|tags| - 1]);
      var front := ItemTags(fields, tags[..|tags| - 1]).value;
      var tag := tags[|tags| - 1];
      PutDistinct(front, tag.attrib["Name"], Decode(fields[tag.attrib["Name"]].codec, tag.text).value);
    }
  }

  lemma {:induction false} ItemTagsErrorPersists(fields: FieldTable, tags: seq<Element>, j: nat)
    requires j <= |tags| && ItemTags(fields, tags[..j]).Err?
    ensures ItemTags(fields, tags) == ItemTags(fields, tags[..j])
    decreases |tags| - j
  {
    if j < |tags| {
      assert tags[..j + 1][..j] == tags[..j];
      ItemTagsErrorPersists(fields, tags, j + 1);
    } else {
      assert tags[..j] == tags;
    }
  }

  lemma {:induction false} MplRecordsErrorPersists(fields: FieldTable, items: seq<Element>, j: nat)
    requires j <= |items| && MplRecords(fields, items[..j]).Err?
    ensures MplRecords(fields, items) == MplRecords(fields, items[..j])
    decreases |items| - j
  {
    if j < |items| {
      assert items[..j + 1][..j] == items[..j];
      MplRecordsErrorPersists(fields, items, j + 1);
    } else {
      assert items[..j] == items;
    }
  }

  /**
   * MplRecords makes one dict per item, each holding the decoded tags of that item.
   */
  lemma {:induction false} MplRecordsShape(fields: FieldTable, items: seq<Element>)
    requires MplRecords(fields, items).Ok?
    ensures |MplRecords(fields, items).value| == |items|
    ensures forall i :: 0 <= i < |items| ==>
      ItemTags(fields, items[i].children) == Ok(MplRecords(fields, items).value[i])
    decreases |items|
  {
    if items != [] {
      var front := items[..|items| - 1];
      MplRecordsShape(fields, front);
      assert forall i :: 0 <= i < |front| ==> front[i] == items[i];
    }
  }

  /**
   * `transform_mpl_response`: one new MediaFile per item, holding the item's tags decoded by
   * the table's Decoder for each tag's field, none of them marked changed.
   */
  method TransformMplResponse(fields: FieldTable, response: Response) returns (r: Outcome<seq<MediaFile>>)
    ensures r.Ok? <==> MplRecords(fields, response.body).Ok?
    ensures r.Err? ==> MplRecords(fields, response.body) == Err(r.error)
    ensures r.Ok? ==> |r.value| == |response.body|
    ensures r.Ok? ==> forall i :: 0 <= i < |r.value| ==>
      ItemTags(fields, response.body[i].children) == Ok(r.value[i].contents)
    ensures r.Ok? ==> forall i :: 0 <= i < |r.value| ==>
      fresh(r.value[i]) && r.value[i].Valid() && r.value[i].State() == Initial(r.value[i].contents)
    ensures r.Ok? ==> forall i, j :: 0 <= i < j < |r.value| ==> r.value[i] != r.value[j]
  {
    var body := response.body;
    var result: seq<MediaFile> := [];
    for i := 0 to |body|
      invariant |result| == i
      invariant forall k :: 0 <= k < i ==> ItemTags(fields, body[k].children) == Ok(result[k].contents)
      invariant forall k :: 0 <= k < i ==>
        fresh(result[k]) && result[k].Valid() && result[k].State() == Initial(result[k].contents)
      invariant forall k, l :: 0 <= k < l < i ==> result[k] != result[l]
    {
      var tags := DecodeItemTags(fields, body[i]);
      if tags.Err? {
        MplRecordsFirstError(fields, body, i);
        return Err(tags.error);
      }
      ItemTagsDistinct(fields, body[i].children);
      var file := new MediaFile(tags.value);
      result := result + [file];
    }
    MplRecordsOk(fields, body);
    return Ok(result);
  }

  /** When every item decodes, MplRecords holds the decoded items in order. */
  lemma {:induction false} MplRecordsOk(fields: FieldTable, items: seq<Element>)
    requires forall k :: 0 <= k < |items| ==> ItemTags(fields, items[k].children).Ok?
    ensures MplRecords(fields, items).Ok?
    decreases |items|
  {
    if items != [] {
      var front := items[..|items| - 1];
      assert forall k :: 0 <= k < |front| ==> front[k] == items[k];
      MplRecordsOk(fields, front);
    }
  }

  /** The first item that fails decides the error. */
  lemma MplRecordsFirstError(fields: FieldTable, items: seq<Element>, j: nat)
    requires j < |items| && forall k :: 0 <= k < j ==> ItemTags(fields, items[k].children).Ok?
    requires ItemTags(fields, items[j].children).Err?
    ensures MplRecords(fields, items) == Err(ItemTags(fields, items[j].children).error)
  {
    var front := items[..j];
    assert forall k :: 0 <= k < |front| ==> front[k] == items[k];
    MplRecordsOk(fields, front);
    assert items[..j + 1][..j] == front;
    MplRecordsErrorPersists(fields, items, j + 1);
  }

  /** The inner loop of `transform_mpl_response`: the decoded tags of one item. */
  method DecodeItemTags(fields: FieldTable, item: Element) returns (r: Outcome<Dict<Value>>)
    ensures r == ItemTags(fields, item.children)
  {
    var tags: Dict<Value> := [];
    for m := 0 to |item.children|
      invariant ItemTags(fields, item.children[..m]) == Ok(tags)
    {
      var tag := item.children[m];
      assert item.children[..m + 1][..m] == item.children[..m];
      if "Name" !in tag.attrib {
        ItemTagsErrorPersists(fields, item.children, m + 1);
        return Err(KeyError("Name"));
      }
      var name := tag.attrib["Name"];
      if name !in fields {
        ItemTagsErrorPersists(fields, item.children, m + 1);
        return Err(KeyError(name));
      }
      var value := Decode(fields[name].codec, tag.text);
      if value.Err? {
        ItemTagsErrorPersists(fields, item.children, m + 1);
        return Err(value.error);
      }
      tags := Put(tags, name, value.value);
    }
    assert item.children[..|item.children|] == item.children;
    return Ok(tags);
  }
  // ---------------------------------------------------------------- escape_for_query

  /** The characters MCWS reserves in a query. */
  predicate Reserved(c: char)
  {
    c == '"' || c == '^' || c == '[' || c == ']'
  }

  /** Reference definition: `/` in front of every reserved character, all else unchanged. */
  function SlashEscaped(s: string): string
  {
    if s == [] then [] else (if Reserved(s[0]) then ['/', s[0]] else [s[0]]) + SlashEscaped(s[1..])
  }

  function ReservedCount(s: string): nat
  {
    if s == [] then 0 else (if Reserved(s[0]) then 1 else 0) + ReservedCount(s[1..])
  }

  /**
   * `escape_for_query`: every `"`, `^`, `[` and `]` gets a `/` in front, nothing else
   * changes, so the text grows by the number of those characters.
   */
  function EscapeForQuery(part: string): (r: string)
    ensures r == SlashEscaped(part)
    ensures |r| == |part| + ReservedCount(part)
  {
    EscapeAgrees(part);
    SlashEscapedLength(part);
    ReplaceAll(ReplaceAll(ReplaceAll(ReplaceAll(part, '"', "/\""), '^', "/^"), '[', "/["), ']', "/]")
  }

  function FourReplacements(s: string): string
  {
    ReplaceAll(ReplaceAll(ReplaceAll(ReplaceAll(s, '"', "/\""), '^', "/^"), '[', "/["), ']', "/]")
  }

  lemma FourReplacementsAppend(a: string, b: string)
    ensures FourReplacements(a + b) == FourReplacements(a) + FourReplacements(b)
  {
    var a1, b1 := ReplaceAll(a, '"', "/\""), ReplaceAll(b, '"', "/\"");
    ReplaceAllAppend(a, b, '"', "/\"");
    var a2, b2 := ReplaceAll(a1, '^', "/^"), ReplaceAll(b1, '^', "/^");
    ReplaceAllAppend(a1, b1, '^', "/^");
    var a3, b3 := ReplaceAll(a2, '[', "/["), ReplaceAll(b2, '[', "/[");
    ReplaceAllAppend(a2, b2, '[', "/[");
    ReplaceAllAppend(a3, b3, ']', "/]");
  }

  lemma FourReplacementsOne(c: char)
    ensures FourReplacements([c]) == if Reserved(c) then ['/', c] else [c]
  {
    ReplaceAllSingle(c, '"', "/\"");
    var s1 := ReplaceAll([c], '"', "/\"");
    if c == '"' {
      ReplaceAllAbsent(s1, '^', "/^");
      ReplaceAllAbsent(s1, '[', "/[");
      ReplaceAllAbsent(s1, ']', "/]");
    } else {
      ReplaceAllSingle(c, '^', "/^");
      var s2 := ReplaceAll(s1, '^', "/^");
      if c == '^' {
        ReplaceAllAbsent(s2, '[', "/[");
        ReplaceAllAbsent(s2, ']', "/]");
      } else {
        ReplaceAllSingle(c, '[', "/[");
        var s3 := ReplaceAll(s2, '[', "/[");
        if c == '[' {
          ReplaceAllAbsent(s3, ']', "/]");
        } else {
          ReplaceAllSingle(c, ']', "/]");
        }
      }
    }
  }

  lemma {:induction false} EscapeAgrees(s: string)
    ensures FourReplacements(s) == SlashEscaped(s)
  {
    if s != [] {
      FourReplacementsAppend([s[0]], s[1..]);
      assert [s[0]] + s[1..] == s;
      FourReplacementsOne(s[0]);
      EscapeAgrees(s[1..]);
    }
  }

  /**
   * After escaping, every `"`, `^`, `[` and `]` has a `/` right before it, so a value can
   * never close the `[...]` it is inserted into.
   */
  lemma {:induction false} EscapedIsGuarded(s: string)
    ensures var r := EscapeForQuery(s);
      forall i :: 0 <= i < |r| && Reserved(r[i]) ==> i > 0 && r[i - 1] == '/'
    decreases |s|
  {
    if s != [] {
      EscapedIsGuarded(s[1..]);
      var head := if Reserved(s[0]) then ['/', s[0]] else [s[0]];
      var r := EscapeForQuery(s);
      var rest := EscapeForQuery(s[1..]);
      assert r == head + rest;
      forall i | 0 <= i < |r| && Reserved(r[i]) ensures i > 0 && r[i - 1] == '/' {
        if i >= |head| {
          assert r[i] == rest[i - |head|];
          if i - |head| > 0 {
            assert r[i - 1] == rest[i - |head| - 1];
          }
        }
      }
    }
  }

  /** A text without reserved characters. */
  predicate PlainText(s: string)
  {
    forall i :: 0 <= i < |s| ==> !Reserved(s[i])
  }

  /** A text without reserved characters is inserted as it is. */
  lemma {:induction false} PlainTextUnescaped(s: string)
    requires PlainText(s)
    ensures EscapeForQuery(s) == s
    decreases |s|
  {
    if s != [] {
      PlainTextUnescaped(s[1..]);
      assert [s[0]] + s[1..] == s;
    }
  }

  /** Every reserved character in `q[lo..hi]` has a `/` before it, itself inside the range. */
  predicate Guarded(q: string, lo: nat, hi: nat)
    requires lo <= hi <= |q|
  {
    forall i :: lo <= i < hi && Reserved(q[i]) ==> i > lo && q[i - 1] == '/'
  }

  /** An escaped text keeps its guards wherever it is inserted. */
  lemma EmbeddedGuarded(pre: string, part: string, post: string)
    ensures Guarded(pre + EscapeForQuery(part) + post, |pre|, |pre| + |EscapeForQuery(part)|)
  {
    var e := EscapeForQuery(part);
    var q := pre + e + post;
    EscapedIsGuarded(part);
    forall i | |pre| <= i < |pre| + |e| && Reserved(q[i]) ensures i > |pre| && q[i - 1] == '/' {
      assert q[i] == e[i - |pre|];
      if i > |pre| {
        assert q[i - 1] == e[i - 1 - |pre|];
      }
    }
  }

  lemma {:induction false} SlashEscapedLength(s: string)
    ensures |SlashEscaped(s)| == |s| + ReservedCount(s)
  {
    if s != [] {
      SlashEscapedLength(s[1..]);
    }
  }

  // ---------------------------------------------------------------- serialize_file_list

  /** `str(file["Key"])`. */
  function KeyText(file: Dict<Value>): Outcome<string>
  {
    match Get(file, "Key")
    case None => Err(KeyError("Key"))
    case Some(k) => PyStr(k)
  }

  function KeyTexts(files: seq<Dict<Value>>): Outcome<seq<string>>
    decreases |files|
  {
    if files == [] then Ok([])
    else
      var front :- KeyTexts(files[..|files| - 1]);
      var key :- KeyText(files[|files| - 1]);
      Ok(front + [key])
  }

  /** `";" + key` for every key, in order. */
  function KeySuffix(keys: seq<string>): string
    decreases |keys|
  {
    if keys == [] then "" else KeySuffix(keys[..|keys| - 1]) + ";" + keys[|keys| - 1]
  }

  /** `"2;" + str(count) + ";" + str(active)` followed by the keys. */
  function FileListText(count: int, active: int, keys: seq<string>): string
  {
    "2;" + IntToString(count) + ";" + IntToString(active) + KeySuffix(keys)
  }

  function SerializedFileList(files: seq<Dict<Value>>, active: int): Outcome<string>
  {
    var keys :- KeyTexts(files);
    Ok(FileListText(|files|, active, keys))
  }

  /** `serialize_file_list(files, active_item_index)`. */
  method SerializeFileList(files: seq<Dict<Value>>, active: int) returns (r: Outcome<string>)
    ensures r == SerializedFileList(files, active)
  {
    var result := "2;" + IntToString(|files|) + ";" + IntToString(active);
    ghost var keys: seq<string> := [];
    for i := 0 to |files|
      invariant KeyTexts(files[..i]) == Ok(keys)
      invariant result == FileListText(|files|, active, keys)
    {
      var key := KeyText(files[i]);
      KeyTextsStep(files, i);
      if key.Err? {
        KeyTextsErrorPersists(files, i + 1);
        return Err(key.error);
      }
      FileListTextStep(|files|, active, keys, key.value);
      result := result + ";" + key.value;
      keys := keys + [key.value];
    }
    assert files[..|files|] == files;
    return Ok(result);
  }

  /** One more key adds `";"` and the key to the text. */
  lemma FileListTextStep(count: int, active: int, keys: seq<string>, key: string)
    ensures FileListText(count, active, keys + [key]) == FileListText(count, active, keys) + ";" + key
  {
    assert (keys + [key])[..|keys|] == keys;
  }

  /** The keys of one more file: its key text appended, or its error. */
  lemma KeyTextsStep(files: seq<Dict<Value>>, i: nat)
    requires i < |files|
    ensures KeyTexts(files[..i + 1]) ==
      if KeyTexts(files[..i]).Err? then KeyTexts(files[..i])
      else if KeyText(files[i]).Err? then Err(KeyText(files[i]).error)
      else Ok(KeyTexts(files[..i]).value + [KeyText(files[i]).value])
  {
    assert files[..i + 1][..i] == files[..i];
  }

  lemma {:induction false} KeyTextsErrorPersists(files: seq<Dict<Value>>, j: nat)
    requires j <= |files| && KeyTexts(files[..j]).Err?
    ensures KeyTexts(files) == KeyTexts(files[..j])
    decreases |files| - j
  {
    if j < |files| {
      assert files[..j + 1][..j] == files[..j];
      KeyTextsErrorPersists(files, j + 1);
    } else {
      assert files[..j] == files;
    }
  }

  lemma {:induction false} KeySuffixJoin(head: seq<string>, keys: seq<string>)
    requires |head| >= 1
    ensures Join(head + keys, ";") == Join(head, ";") + KeySuffix(keys)
    decreases |keys|
  {
    if keys == [] {
      assert head + keys == head;
    } else {
      var front := keys[..|keys| - 1];
      KeySuffixJoin(head, front);
      assert head + keys == (head + front) + [keys[|keys| - 1]];
      JoinSnoc(head + front, keys[|keys| - 1], ";");
    }
  }

  /**
   * The serialised list is the ';'-join of "2", the count, the active index and the keys,
   * so splitting it on ';' gives back exactly those n + 3 fields.
   */
  lemma FileListFields(count: int, active: int, keys: seq<string>)
    requires forall i :: 0 <= i < |keys| ==> ';' !in keys[i]
    ensures Split(FileListText(count, active, keys), ';')
         == ["2", IntToString(count), IntToString(active)] + keys
    ensures |Split(FileListText(count, active, keys), ';')| == |keys| + 3
  {
    var head := ["2", IntToString(count), IntToString(active)];
    KeySuffixJoin(head, keys);
    assert head[1..][1..] == [IntToString(active)];
    assert Join(head[1..], ";") == IntToString(count) + ";" + IntToString(active);
    assert Join(head, ";") == "2;" + IntToString(count) + ";" + IntToString(active);
    IntToStringHasNo(count, ';');
    IntToStringHasNo(active, ';');
    var all := head + keys;
    forall i | 0 <= i < |all| ensures ';' !in all[i] {
      if i >= 3 {
        assert all[i] == keys[i - 3];
      }
    }
    SplitJoin(all, ';');
  }

  lemma {:induction false} KeyTextsShape(files: seq<Dict<Value>>)
    requires KeyTexts(files).Ok?
    ensures |KeyTexts(files).value| == |files|
    ensures forall i :: 0 <= i < |files| ==> KeyText(files[i]) == Ok(KeyTexts(files).value[i])
    decreases |files|
  {
    if files != [] {
      var front := files[..|files| - 1];
      KeyTextsShape(front);
      assert forall i :: 0 <= i < |front| ==> front[i] == files[i];
    }
  }

  /** The decimal text of every file's integer Key, in order. */
  function IntegerKeys(files: seq<Dict<Value>>): seq<string>
    requires forall i :: 0 <= i < |files| ==> Get(files[i], "Key").Some? && Get(files[i], "Key").value.Int?
  {
    seq(|files|, i requires 0 <= i < |files| => IntToString(Get(files[i], "Key").value.i))
  }

  /**
   * Files whose keys are integers serialise to "2;<n>;<active>;<key 1>;...;<key n>": split
   * on ';' it gives "2", n, the active index and the n keys in order.
   */
  lemma SerializedIntegerKeys(files: seq<Dict<Value>>, active: int)
    requires forall i :: 0 <= i < |files| ==> Get(files[i], "Key").Some? && Get(files[i], "Key").value.Int?
    ensures SerializedFileList(files, active).Ok?
    ensures Split(SerializedFileList(files, active).value, ';')
         == ["2", IntToString(|files|), IntToString(active)] + IntegerKeys(files)
  {
    KeyTextsOk(files);
    var keys := KeyTexts(files).value;
    KeyTextsShape(files);
    assert keys == IntegerKeys(files);
    forall i | 0 <= i < |keys| ensures ';' !in keys[i] {
      IntToStringHasNo(Get(files[i], "Key").value.i, ';');
    }
    FileListFields(|files|, active, keys);
  }

  lemma {:induction false} KeyTextsOk(files: seq<Dict<Value>>)
    requires forall i :: 0 <= i < |files| ==> Get(files[i], "Key").Some? && Get(files[i], "Key").value.Int?
    ensures KeyTexts(files).Ok?
    decreases |files|
  {
    if files != [] {
      var front := files[..|files| - 1];
      assert forall i :: 0 <= i < |front| ==> front[i] == files[i];
      KeyTextsOk(front);
    }
  }
}
