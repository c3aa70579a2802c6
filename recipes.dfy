/**
 * Ready-made searches (pymcws/api/recipes.py): the query strings the recipes build and the
 * requests they send. A recipe that sends several requests is modelled with the server's
 * replies given as a function from request to reply.
 */
module Recipes {
  import opened Wrappers
  import opened Exceptions
  import opened Strings
  import opened Values
  import opened Dicts
  import opened Http
  import opened Model
  import opened Utils
  import opened Playback

  // ---------------------------------------------------------------- query strings

  /** The query for one album by one album artist, in disc and track order. */
  function AlbumQuery(albumArtist: string, album: string): string
  {
    "[Album Artist]=[" + EscapeForQuery(albumArtist) + "] [Album]=[" + EscapeForQuery(album)
      + "] ~sort=[Disc #],[Track #]"
  }

  /** The query for every file tagged with a keyword. */
  function KeywordQuery(keyword: string): string
  {
    "[keywords]=[" + EscapeForQuery(keyword) + "]"
  }

  /**
   * Names without reserved characters appear in the album query verbatim, and a reserved
   * character inside either inserted name always carries its `/`, so no name can close the
   * bracket it sits in.
   */
  lemma AlbumQueryLayout(albumArtist: string, album: string)
    ensures var q := AlbumQuery(albumArtist, album);
      var m := 16 + |EscapeForQuery(albumArtist)|;
      && m + 11 + |EscapeForQuery(album)| <= |q|
      && Guarded(q, 16, m)
      && Guarded(q, m + 11, m + 11 + |EscapeForQuery(album)|)
    ensures PlainText(albumArtist) && PlainText(album) ==>
      AlbumQuery(albumArtist, album) == "[Album Artist]=[" + albumArtist + "] [Album]=[" + album + "] ~sort=[Disc #],[Track #]"
  {
    var a := EscapeForQuery(albumArtist);
    var b := EscapeForQuery(album);
    var tail := "] ~sort=[Disc #],[Track #]";
    var q := AlbumQuery(albumArtist, album);
    assert |"[Album Artist]=["| == 16 && |"] [Album]=["| == 11;
    assert q == "[Album Artist]=[" + a + ("] [Album]=[" + b + tail);
    EmbeddedGuarded("[Album Artist]=[", albumArtist, "] [Album]=[" + b + tail);
    assert q == ("[Album Artist]=[" + a + "] [Album]=[") + b + tail;
    EmbeddedGuarded("[Album Artist]=[" + a + "] [Album]=[", album, tail);
    if PlainText(albumArtist) && PlainText(album) {
      PlainTextUnescaped(albumArtist);
      PlainTextUnescaped(album);
    }
  }

  /**
   * A keyword without reserved characters appears verbatim; a reserved character inside an
   * inserted keyword always carries its `/`.
   */
  lemma KeywordQueryLayout(keyword: string)
    ensures 12 + |EscapeForQuery(keyword)| <= |KeywordQuery(keyword)|
    ensures Guarded(KeywordQuery(keyword), 12, 12 + |EscapeForQuery(keyword)|)
    ensures PlainText(keyword) ==> KeywordQuery(keyword) == "[keywords]=[" + keyword + "]"
  {
    assert |"[keywords]=["| == 12;
    EmbeddedGuarded("[keywords]=[", keyword, "]");
    if PlainText(keyword) {
      PlainTextUnescaped(keyword);
    }
  }

  /** Every sort criterion in brackets, not escaped. */
  function Bracketed(criteria: seq<string>): (r: seq<string>)
    ensures |r| == |criteria|
  {
    seq(|criteria|, i requires 0 <= i < |criteria| => "[" + criteria[i] + "]")
  }

  /**
   * The query of `query_keyword`: the keyword query, then for given criteria " ~sort="
   * followed by `"[" + c + "],"` per criterion, with the last character cut off.
   */
  function KeywordSearchQuery(keyword: string, sortCriteria: Option<seq<string>>): string
  {
    match sortCriteria
    case None => KeywordQuery(keyword)
    case Some(criteria) => DropLast(KeywordQuery(keyword) + " ~sort=" + Terminated(Bracketed(criteria)))
  }

  /** The query-building part of `query_keyword`. */
  method BuildKeywordQuery(keyword: string, sortCriteria: Option<seq<string>>) returns (query: string)
    ensures query == KeywordSearchQuery(keyword, sortCriteria)
  {
    query := "[keywords]=[" + EscapeForQuery(keyword) + "]";
    if sortCriteria.Some? {
      var criteria := sortCriteria.value;
      query := query + " ~sort=";
      for i := 0 to |criteria|
        invariant query == KeywordQuery(keyword) + " ~sort=" + Terminated(Bracketed(criteria[..i]))
      {
        assert Bracketed(criteria[..i + 1])[..i] == Bracketed(criteria[..i]);
        query := query + "[" + criteria[i] + "],";
      }
      assert criteria[..|criteria|] == criteria;
      query := DropLast(query);
    }
  }

  /**
   * Without criteria there is no sort clause; with criteria c1..cn the query ends in
   * " ~sort=[c1],...,[cn]", the criteria not escaped; an empty list leaves " ~sort", the
   * cut taking the "=".
   */
  lemma KeywordSortClause(keyword: string, criteria: seq<string>)
    ensures KeywordSearchQuery(keyword, None) == KeywordQuery(keyword)
    ensures criteria != [] ==>
      KeywordSearchQuery(keyword, Some(criteria)) == KeywordQuery(keyword) + " ~sort=" + Join(Bracketed(criteria), ",")
    ensures KeywordSearchQuery(keyword, Some([])) == KeywordQuery(keyword) + " ~sort"
  {
    var head := KeywordQuery(keyword) + " ~sort=";
    assert Terminated(Bracketed([])) == "";
    assert head + "" == KeywordQuery(keyword) + " ~sort" + "=";
    if criteria != [] {
      var t := Terminated(Bracketed(criteria));
      TerminatedJoin(Bracketed(criteria));
      assert head + t == (head + Join(Bracketed(criteria), ",")) + ",";
    }
  }

  // ---------------------------------------------------------------- searches

  /**
   * `search(query, action, play_doctor=..., shuffle=..., zone=...)` (pymcws/api/files.py)
   * as the recipes call it: no field list and local file names allowed.
   */
  function SearchRequest(query: string, action: string, playDoctor: bool, shuffle: bool,
                         zone: Option<Zone>): Request
  {
    // the three flags are new keys, so each assignment appends
    Request("Files/Search", Some(WithZone([("Action", Str(action)), ("Query", Str(query))], zone)
      + [("NoLocalFilenames", Flag(false)), ("PlayDoctor", Flag(playDoctor)), ("Shuffle", Flag(shuffle))]))
  }

  /** `query_album`: the album query as an MPL search. */
  function QueryAlbumRequest(albumArtist: string, album: string): Request
  {
    SearchRequest(AlbumQuery(albumArtist, album), "MPL", false, false, None)
  }

  /** `query_keyword`: the keyword query with its sort clause as an MPL search. */
  function QueryKeywordRequest(keyword: string, sortCriteria: Option<seq<string>>): Request
  {
    SearchRequest(KeywordSearchQuery(keyword, sortCriteria), "MPL", false, false, None)
  }

  /** The outcome of a recipe and the requests it sent, in order. */
  datatype Trace = Trace(result: Outcome<()>, sent: seq<Request>)

  /** The replies of the media server, one per request; an error is what `send_request` raised. */
  type Server = Request -> Outcome<Response>

  /**
   * How a recipe reads a reply: `search(...)` is followed by `raise_for_status()`; `shuffle`
   * and `repeat` raise or return the reported mode, which the recipe drops.
   */
  datatype ReplyCheck = StatusOnly | ModeRead

  /** One call of a recipe: the request and how its reply is read. */
  datatype Call = Call(request: Request, check: ReplyCheck)

  /** Sending one call: what the server or the reply check raised, or nothing. */
  function Answer(server: Server, call: Call): Outcome<()>
  {
    var response :- server(call.request);
    match call.check
    case StatusOnly =>
      var _ :- RaiseForStatus(response);
      Ok(())
    case ModeRead =>
      var _ :- ModeReply(response);
      Ok(())
  }

  function Requests(calls: seq<Call>): (rs: seq<Request>)
    ensures |rs| == |calls| && forall i :: 0 <= i < |calls| ==> rs[i] == calls[i].request
  {
    seq(|calls|, i requires 0 <= i < |calls| => calls[i].request)
  }

  /** A recipe's calls made in order; the first one that raises ends the recipe. */
  function Run(server: Server, calls: seq<Call>): Trace
  {
    if calls == [] then Trace(Ok(()), [])
    else
      var first := Answer(server, calls[0]);
      if first.Err? then Trace(first, [calls[0].request])
      else
        var rest := Run(server, calls[1..]);
        Trace(rest.result, [calls[0].request] + rest.sent)
  }

  /**
   * A run sends a prefix of its calls' requests, at least the first; it succeeds exactly
   * when every call succeeds, and then it has sent them all; when it fails the error is
   * that of the last request sent, and every earlier call succeeded.
   */
  lemma RunSendsPrefix(server: Server, calls: seq<Call>)
    ensures var t := Run(server, calls);
      && |t.sent| <= |calls|
      && t.sent == Requests(calls)[..|t.sent|]
      && (calls != [] ==> t.sent != [])
      && (t.result.Ok? <==> forall i :: 0 <= i < |calls| ==> Answer(server, calls[i]).Ok?)
      && (t.result.Ok? ==> t.sent == Requests(calls))
    ensures var t := Run(server, calls);
      t.result.Err? ==> t.sent != [] && Answer(server, calls[|t.sent| - 1]) == t.result
    ensures var t := Run(server, calls);
      forall i :: 0 <= i < |t.sent| - 1 ==> Answer(server, calls[i]).Ok?
  {
    RunSent(server, calls);
    RunResult(server, calls);
    var t := Run(server, calls);
    if t.result.Ok? {
      assert Requests(calls)[..|calls|] == Requests(calls);
    }
  }

  /** The requests a run sends: a non-empty prefix of its calls', all of them on success. */
  lemma {:induction false} RunSent(server: Server, calls: seq<Call>)
    ensures var t := Run(server, calls);
      && |t.sent| <= |calls|
      && t.sent == Requests(calls)[..|t.sent|]
      && (calls != [] ==> t.sent != [])
      && (t.result.Ok? ==> |t.sent| == |calls|)
  {
    if calls != [] {
      RunSent(server, calls[1..]);
      var rest := Run(server, calls[1..]);
      if Answer(server, calls[0]).Ok? {
        assert Requests(calls) == [calls[0].request] + Requests(calls[1..]);
        assert Requests(calls)[..|rest.sent| + 1] == [calls[0].request] + Requests(calls[1..])[..|rest.sent|];
      }
    }
  }

  /** A run succeeds exactly when every call does; a failure is the last sent call's. */
  lemma RunResult(server: Server, calls: seq<Call>)
    ensures var t := Run(server, calls);
      && |t.sent| <= |calls|
      && (t.result.Ok? <==> forall i :: 0 <= i < |calls| ==> Answer(server, calls[i]).Ok?)
      && (t.result.Err? ==> t.sent != [] && Answer(server, calls[|t.sent| - 1]) == t.result)
      && (forall i :: 0 <= i < |t.sent| - 1 ==> Answer(server, calls[i]).Ok?)
  {
    RunSent(server, calls);
    RunOkIff(server, calls);
    RunFailure(server, calls);
  }

  /** A run succeeds exactly when every one of its calls does. */
  lemma {:induction false} RunOkIff(server: Server, calls: seq<Call>)
    ensures Run(server, calls).result.Ok? <==> forall i :: 0 <= i < |calls| ==> Answer(server, calls[i]).Ok?
  {
    if calls != [] {
      RunOkIff(server, calls[1..]);
      assert forall i :: 1 <= i < |calls| ==> calls[i] == calls[1..][i - 1];
    }
  }

  /** Every call before the last one sent succeeded, and a failure is the last one's. */
  lemma {:induction false} RunFailure(server: Server, calls: seq<Call>)
    ensures var t := Run(server, calls);
      && |t.sent| <= |calls|
      && (t.result.Err? ==> t.sent != [] && Answer(server, calls[|t.sent| - 1]) == t.result)
      && (forall i :: 0 <= i < |t.sent| - 1 ==> Answer(server, calls[i]).Ok?)
  {
    RunSent(server, calls);
    if calls != [] && Answer(server, calls[0]).Ok? {
      RunFailure(server, calls[1..]);
      var rest := Run(server, calls[1..]);
      assert forall i :: 1 <= i <= |rest.sent| ==> calls[i] == calls[1..][i - 1];
    }
  }

  /**
   * The calls of `play_album(album_artist, album, shuffle_album, play_doctor, repeat_album,
   * zone)`: shuffle switched off first when `shuffle_album is False`, the album searched and
   * played, and repeat set when `repeat_album` is not None. `None` stands for Python's None
   * in both optional flags.
   */
  function AlbumCalls(albumArtist: string, album: string, shuffleAlbum: Option<bool>, playDoctor: bool,
                      repeatAlbum: Option<bool>, zone: Option<Zone>): seq<Call>
  {
    var search := SearchRequest(AlbumQuery(albumArtist, album), "play", playDoctor, shuffleAlbum == Some(true), zone);
    (if shuffleAlbum == Some(false) then [Call(ShuffleRequest(Str("Off"), zone), ModeRead)] else [])
      + [Call(search, StatusOnly)]
      + (if repeatAlbum.None? then []
         else [Call(RepeatRequest(Str(if repeatAlbum.value then "Playlist" else "Off"), zone), ModeRead)])
  }

  /** `play_album`. */
  function PlayAlbum(server: Server, albumArtist: string, album: string, shuffleAlbum: Option<bool>,
                     playDoctor: bool, repeatAlbum: Option<bool>, zone: Option<Zone>): Trace
  {
    Run(server, AlbumCalls(albumArtist, album, shuffleAlbum, playDoctor, repeatAlbum, zone))
  }

  /** `play_keyword(keyword, play_doctor, shuffle_list, zone)`: one search, then the status check. */
  function PlayKeyword(server: Server, keyword: string, playDoctor: bool, shuffleList: Option<bool>,
                       zone: Option<Zone>): Trace
  {
    var search := SearchRequest(KeywordQuery(keyword), "play", playDoctor, shuffleList == Some(true), zone);
    Run(server, [Call(search, StatusOnly)])
  }

  /** The value of parameter `k` of a request. */
  function Param(r: Request, k: string): Option<Value>
  {
    if r.payload.None? then None else Get(r.payload.value, k)
  }

  /** The search parameters that come from the arguments, and the zone. */
  lemma SearchParams(query: string, action: string, playDoctor: bool, shuffle: bool, zone: Option<Zone>)
    ensures SearchRequest(query, action, playDoctor, shuffle, zone).extension == "Files/Search"
    ensures Param(SearchRequest(query, action, playDoctor, shuffle, zone), "Query") == Some(Str(query))
    ensures Param(SearchRequest(query, action, playDoctor, shuffle, zone), "Action") == Some(Str(action))
    ensures zone.Some? ==> Param(SearchRequest(query, action, playDoctor, shuffle, zone), "Zone")
                           == Some(BestIdentifier(zone.value))
  {
    var front := [("Action", Str(action)), ("Query", Str(query))];
    var p := WithZone(front, zone);
    var flags := [("NoLocalFilenames", Flag(false)), ("PlayDoctor", Flag(playDoctor)), ("Shuffle", Flag(shuffle))];
    assert front[1..] == [("Query", Str(query))];
    assert Get(front, "Query") == Some(Str(query));
    WithZoneEffect(front, zone, "Query");
    WithZoneEffect(front, zone, "Action");
    GetAppendPresent(p, flags, "Query");
    GetAppendPresent(p, flags, "Action");
    if zone.Some? {
      GetAppendPresent(p, flags, "Zone");
    }
  }

  /** The two flags of a search. */
  lemma SearchFlags(query: string, action: string, playDoctor: bool, shuffle: bool, zone: Option<Zone>)
    ensures Param(SearchRequest(query, action, playDoctor, shuffle, zone), "Shuffle") == Some(Flag(shuffle))
    ensures Param(SearchRequest(query, action, playDoctor, shuffle, zone), "PlayDoctor") == Some(Flag(playDoctor))
  {
    var front := [("Action", Str(action)), ("Query", Str(query))];
    assert front[1..][1..] == [];
    assert |"Shuffle"| != |"Action"| && |"Shuffle"| != |"Query"|;
    assert |"PlayDoctor"| != |"Action"| && |"PlayDoctor"| != |"Query"|;
    assert Get(front, "Shuffle") == None && Get(front, "PlayDoctor") == None;
    WithZoneEffect(front, zone, "Shuffle");
    WithZoneEffect(front, zone, "PlayDoctor");
    FlagsAppended(WithZone(front, zone), playDoctor, shuffle);
  }

  /** The flags appended after parameters that hold neither. */
  lemma FlagsAppended(p: Params, playDoctor: bool, shuffle: bool)
    requires Get(p, "Shuffle") == None && Get(p, "PlayDoctor") == None
    ensures var flags := [("NoLocalFilenames", Flag(false)), ("PlayDoctor", Flag(playDoctor)), ("Shuffle", Flag(shuffle))];
      Get(p + flags, "Shuffle") == Some(Flag(shuffle)) && Get(p + flags, "PlayDoctor") == Some(Flag(playDoctor))
  {
    var flags := [("NoLocalFilenames", Flag(false)), ("PlayDoctor", Flag(playDoctor)), ("Shuffle", Flag(shuffle))];
    assert |"Shuffle"| != |"NoLocalFilenames"| && |"PlayDoctor"| != |"NoLocalFilenames"|;
    assert |"Shuffle"| != |"PlayDoctor"|;
    GetAppendAbsent(p, flags, "Shuffle");
    GetAppendAbsent(p, flags, "PlayDoctor");
    var rest := flags[1..];
    assert rest == [("PlayDoctor", Flag(playDoctor)), ("Shuffle", Flag(shuffle))];
    assert rest[1..] == [("Shuffle", Flag(shuffle))];
    assert Get(rest[1..], "Shuffle") == Some(Flag(shuffle));
    assert Get(rest, "Shuffle") == Some(Flag(shuffle));
    assert Get(flags, "Shuffle") == Some(Flag(shuffle));
    assert Get(flags, "PlayDoctor") == Some(Flag(playDoctor));
  }

  /**
   * `play_album` makes two or three calls, and shuffle is switched off, with Mode "Off" and
   * first, exactly when `shuffle_album is False`.
   */
  lemma AlbumCallsShuffle(albumArtist: string, album: string, shuffleAlbum: Option<bool>, playDoctor: bool,
                          repeatAlbum: Option<bool>, zone: Option<Zone>)
    ensures var calls := AlbumCalls(albumArtist, album, shuffleAlbum, playDoctor, repeatAlbum, zone);
      && |calls| == (if shuffleAlbum == Some(false) then 1 else 0) + 1 + (if repeatAlbum.Some? then 1 else 0)
      && (shuffleAlbum == Some(false) <==> calls[0].request.extension == "Playback/Shuffle")
      && (shuffleAlbum == Some(false) ==> Param(calls[0].request, "Mode") == Some(Str("Off")))
  {
    var calls := AlbumCalls(albumArtist, album, shuffleAlbum, playDoctor, repeatAlbum, zone);
    var search := SearchRequest(AlbumQuery(albumArtist, album), "play", playDoctor, shuffleAlbum == Some(true), zone);
    WithZoneEffect([("Mode", Str("Off"))], zone, "Mode");
    assert |"Files/Search"| != |"Playback/Shuffle"|;
    if shuffleAlbum == Some(false) {
      assert calls[0] == Call(ShuffleRequest(Str("Off"), zone), ModeRead);
    } else {
      assert calls[0] == Call(search, StatusOnly);
    }
  }

  /**
   * The search of `play_album`, right after the shuffle call if any: the album query, action
   * "play", the status check, and the shuffle flag "1" exactly when `shuffle_album` is True;
   * no call from the search on switches shuffle.
   */
  lemma AlbumCallsSearch(albumArtist: string, album: string, shuffleAlbum: Option<bool>, playDoctor: bool,
                         repeatAlbum: Option<bool>, zone: Option<Zone>)
    ensures var calls := AlbumCalls(albumArtist, album, shuffleAlbum, playDoctor, repeatAlbum, zone);
      var s := if shuffleAlbum == Some(false) then 1 else 0;
      && s < |calls|
      && calls[s].request.extension == "Files/Search"
      && calls[s].check == StatusOnly
      && Param(calls[s].request, "Query") == Some(Str(AlbumQuery(albumArtist, album)))
      && Param(calls[s].request, "Action") == Some(Str("play"))
      && (Param(calls[s].request, "Shuffle") == Some(Str("1")) <==> shuffleAlbum == Some(true))
      && (forall i :: s <= i < |calls| ==> calls[i].request.extension != "Playback/Shuffle")
  {
    var s := if shuffleAlbum == Some(false) then 1 else 0;
    var search := SearchRequest(AlbumQuery(albumArtist, album), "play", playDoctor, shuffleAlbum == Some(true), zone);
    AlbumSearchAt(albumArtist, album, shuffleAlbum, playDoctor, repeatAlbum, zone);
    SearchParams(AlbumQuery(albumArtist, album), "play", playDoctor, shuffleAlbum == Some(true), zone);
    SearchFlags(AlbumQuery(albumArtist, album), "play", playDoctor, shuffleAlbum == Some(true), zone);
    assert Flag(false) != Str("1");
  }

  /** The search call of `play_album` sits at index 1 after a shuffle call, else at 0, and is followed by a repeat call at most. */
  lemma AlbumSearchAt(albumArtist: string, album: string, shuffleAlbum: Option<bool>, playDoctor: bool,
                      repeatAlbum: Option<bool>, zone: Option<Zone>)
    ensures var calls := AlbumCalls(albumArtist, album, shuffleAlbum, playDoctor, repeatAlbum, zone);
      var s := if shuffleAlbum == Some(false) then 1 else 0;
      && s < |calls|
      && calls[s] == Call(SearchRequest(AlbumQuery(albumArtist, album), "play", playDoctor, shuffleAlbum == Some(true), zone), StatusOnly)
      && (forall i :: s <= i < |calls| ==> calls[i].request.extension != "Playback/Shuffle")
  {
    var calls := AlbumCalls(albumArtist, album, shuffleAlbum, playDoctor, repeatAlbum, zone);
    var s := if shuffleAlbum == Some(false) then 1 else 0;
    var search := Call(SearchRequest(AlbumQuery(albumArtist, album), "play", playDoctor, shuffleAlbum == Some(true), zone), StatusOnly);
    var tail := if repeatAlbum.None? then []
      else [Call(RepeatRequest(Str(if repeatAlbum.value then "Playlist" else "Off"), zone), ModeRead)];
    var front := if shuffleAlbum == Some(false) then [Call(ShuffleRequest(Str("Off"), zone), ModeRead)] else [];
    assert calls == front + [search] + tail;
    assert |front| == s;
    assert search.request.extension == "Files/Search";
    assert |"Files/Search"| != |"Playback/Shuffle"|;
    assert |"Playback/Repeat"| != |"Playback/Shuffle"|;
    assert forall c :: c in [search] + tail ==> c.request.extension != "Playback/Shuffle";
    assert forall i :: s <= i < |calls| ==> calls[i] == ([search] + tail)[i - s];
  }

  /**
   * `play_album` ends with a repeat call exactly when `repeat_album` is not None: Mode
   * "Playlist" for True, "Off" for False.
   */
  lemma AlbumCallsRepeat(albumArtist: string, album: string, shuffleAlbum: Option<bool>, playDoctor: bool,
                         repeatAlbum: Option<bool>, zone: Option<Zone>)
    ensures var calls := AlbumCalls(albumArtist, album, shuffleAlbum, playDoctor, repeatAlbum, zone);
      && calls != []
      && (repeatAlbum.Some? <==> calls[|calls| - 1].request.extension == "Playback/Repeat")
      && (repeatAlbum.Some? ==> Param(calls[|calls| - 1].request, "Mode") == Some(Str(if repeatAlbum.value then "Playlist" else "Off")))
  {
    var calls := AlbumCalls(albumArtist, album, shuffleAlbum, playDoctor, repeatAlbum, zone);
    var search := SearchRequest(AlbumQuery(albumArtist, album), "play", playDoctor, shuffleAlbum == Some(true), zone);
    assert |"Files/Search"| != |"Playback/Repeat"|;
    if repeatAlbum.Some? {
      var mode := Str(if repeatAlbum.value then "Playlist" else "Off");
      WithZoneEffect([("Mode", mode)], zone, "Mode");
      assert RepeatMode(mode) == mode;
      assert calls[|calls| - 1] == Call(RepeatRequest(mode, zone), ModeRead);
    } else {
      assert calls[|calls| - 1] == Call(search, StatusOnly);
    }
  }

  /**
   * `play_album` sends a prefix of its calls, at least the shuffle call or the search, and
   * all of them when it succeeds; `play_album` and `query_album` search for the same query.
   */
  lemma PlayAlbumSends(server: Server, albumArtist: string, album: string, shuffleAlbum: Option<bool>,
                       playDoctor: bool, repeatAlbum: Option<bool>, zone: Option<Zone>)
    ensures var t := PlayAlbum(server, albumArtist, album, shuffleAlbum, playDoctor, repeatAlbum, zone);
      var calls := AlbumCalls(albumArtist, album, shuffleAlbum, playDoctor, repeatAlbum, zone);
      && 1 <= |t.sent| <= |calls| <= 3
      && t.sent == Requests(calls)[..|t.sent|]
      && (t.result.Ok? ==> t.sent == Requests(calls))
    ensures var calls := AlbumCalls(albumArtist, album, shuffleAlbum, playDoctor, repeatAlbum, zone);
      var s := if shuffleAlbum == Some(false) then 1 else 0;
      Param(calls[s].request, "Query") == Param(QueryAlbumRequest(albumArtist, album), "Query")
  {
    var calls := AlbumCalls(albumArtist, album, shuffleAlbum, playDoctor, repeatAlbum, zone);
    AlbumCallsShuffle(albumArtist, album, shuffleAlbum, playDoctor, repeatAlbum, zone);
    AlbumCallsSearch(albumArtist, album, shuffleAlbum, playDoctor, repeatAlbum, zone);
    RunSendsPrefix(server, calls);
    SearchParams(AlbumQuery(albumArtist, album), "MPL", false, false, None);
  }

  /** `play_keyword` sends its one search, with the keyword query and action "play". */
  lemma PlayKeywordSends(server: Server, keyword: string, playDoctor: bool, shuffleList: Option<bool>,
                         zone: Option<Zone>)
    ensures var t := PlayKeyword(server, keyword, playDoctor, shuffleList, zone);
      && |t.sent| == 1
      && t.sent[0].extension == "Files/Search"
      && Param(t.sent[0], "Query") == Some(Str(KeywordQuery(keyword)))
      && Param(t.sent[0], "Action") == Some(Str("play"))
      && (Param(t.sent[0], "Shuffle") == Some(Str("1")) <==> shuffleList == Some(true))
      && (t.result.Ok? <==> Answer(server, Call(t.sent[0], StatusOnly)).Ok?)
  {
    var search := SearchRequest(KeywordQuery(keyword), "play", playDoctor, shuffleList == Some(true), zone);
    SearchParams(KeywordQuery(keyword), "play", playDoctor, shuffleList == Some(true), zone);
    SearchFlags(KeywordQuery(keyword), "play", playDoctor, shuffleList == Some(true), zone);
    assert Flag(false) != Str("1");
    RunSendsPrefix(server, [Call(search, StatusOnly)]);
  }
}
