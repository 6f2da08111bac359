/** `obsidian.server.io.search.LoadResult`: the outcome of a track lookup.
    `obsidian.server.util.search.LoadResult` declares the same class with
    the same two constructors, so one module stands for both. A track is
    the part of lavaplayer's `AudioTrack` the responses read. A failure
    carries lavaplayer's `FriendlyException`, whose message may be null. */
module LoadResult {
  import opened Wrappers
  import opened KotlinInt
  import opened Throwables

  datatype LoadType = TRACK_LOADED | PLAYLIST_LOADED | SEARCH_RESULT | NO_MATCHES | LOAD_FAILED

  /** `handle` is the object's identity. lavaplayer's track classes keep
      `Object.equals`, so two tracks are equal only when they are the same
      object; a handle stands for one object and so for one set of fields. */
  datatype AudioTrack = AudioTrack(
    handle: nat,
    title: string, author: string, uri: string, identifier: string,
    duration: Long, position: Long, isStream: bool, seekable: bool,
    sourceName: Option<string>)   // the name of the source manager, if the track has one

  datatype LoadResult = LoadResult(
    loadResultType: LoadType,
    tracks: seq<AudioTrack>,
    playlistName: Option<string>,
    selectedTrack: Option<int>,
    exception: Option<FriendlyException>)

  /** What every result satisfies whichever constructor made it: an
      exception only on an empty LOAD_FAILED result without playlist data. */
  predicate WellFormed(r: LoadResult)
  {
    r.exception.Some? ==>
      r.loadResultType == LOAD_FAILED && r.tracks == [] && r.playlistName.None? && r.selectedTrack.None?
  }

  /** The four-argument constructor: the fields as given, no exception. */
  function Of(loadResultType: LoadType, tracks: seq<AudioTrack>, playlistName: Option<string>,
              selectedTrack: Option<int>): (r: LoadResult)
    ensures r.exception.None? && WellFormed(r)
    ensures r.loadResultType == loadResultType && r.tracks == tracks
    ensures r.playlistName == playlistName && r.selectedTrack == selectedTrack
  {
    LoadResult(loadResultType, tracks, playlistName, selectedTrack, None)
  }

  /** The exception constructor: a LOAD_FAILED result with nothing else in
      it; the exception itself may be null. */
  function Failed(exception: Option<FriendlyException>): (r: LoadResult)
    ensures r.loadResultType == LOAD_FAILED && r.tracks == [] && r.exception == exception
    ensures r.playlistName.None? && r.selectedTrack.None? && WellFormed(r)
  {
    LoadResult(LOAD_FAILED, [], None, None, exception)
  }

  /** The two constructors only meet on a LOAD_FAILED result without an
      exception: any result carrying an exception comes from `Failed`. */
  lemma ConstructorsMeetOnlyWithoutException(t: LoadType, tracks: seq<AudioTrack>, name: Option<string>,
                                             selected: Option<int>, e: Option<FriendlyException>)
    ensures Of(t, tracks, name, selected) == Failed(e) <==>
              e.None? && t == LOAD_FAILED && tracks == [] && name.None? && selected.None?
  {
  }
}

/** The lavaplayer callbacks an `AudioLoadResultHandler` receives, once per
    lookup, and the playlist they may carry. */
module LoadOutcome {
  import opened Wrappers
  import opened Throwables
  import opened LoadResult

  datatype AudioPlaylist = AudioPlaylist(name: string, tracks: seq<AudioTrack>,
                                         selectedTrack: Option<AudioTrack>, isSearchResult: bool)

  datatype Outcome =
    | TrackLoaded(track: AudioTrack)
    | PlaylistLoaded(playlist: AudioPlaylist)
    | NoMatches
    | LoadFailedWith(e: FriendlyException)

  /** `List.indexOf`: the first position holding `x`, or -1 (also for a
      null `x`). Tracks compare by identity, so a copy of the same video
      loaded twice is not the selected one. */
  function IndexOf(s: seq<AudioTrack>, x: Option<AudioTrack>): (i: int)
    ensures -1 <= i < |s|
    ensures i == -1 <==> x.None? || x.value !in s
    ensures i >= 0 ==> s[i] == x.value && x.value !in s[..i]
  {
    if x.None? || s == [] then -1
    else if s[0] == x.value then 0
    else
      var j := IndexOf(s[1..], x);
      if j == -1 then -1 else j + 1
  }

  /** A playlist holding the same video twice, with the second copy
      selected, reports the second position: equal fields do not make the
      first copy the selected track. */
  lemma SelectedCopyByIdentity(t: AudioTrack, copy: AudioTrack)
    requires copy == t.(handle := t.handle + 1)
    ensures IndexOf([t, copy], Some(copy)) == 1
  {
    assert [t, copy][1..] == [copy];
  }
}

/** `obsidian.server.io.search.AudioLoader`: a single-use handler whose
    future is completed by the first lavaplayer callback. */
module SearchAudioLoader {
  import opened Wrappers
  import opened LoadResult
  import opened LoadOutcome

  datatype Loader = Loader(used: bool, result: Option<LoadResult>)   // `result` is the future

  function New(): (l: Loader)
    ensures !l.used && l.result.None?
  {
    Loader(false, None)
  }

  /** `load`: the first call marks the loader used (and hands the
      identifier to lavaplayer); any later call fails its `check`. */
  function Load(l: Loader): (r: Result<Loader, Failure>)
    ensures r.Ok? <==> !l.used
    ensures r.Ok? ==> r.value == l.(used := true)
    ensures r.Err? ==> r.error == IllegalState
  {
    if l.used then Err(IllegalState) else Ok(l.(used := true))
  }

  /** The result each callback completes the future with. */
  function ResultOf(o: Outcome): (r: LoadResult)
    ensures WellFormed(r)
    ensures o.TrackLoaded? ==> r == Of(TRACK_LOADED, [o.track], None, None)
    ensures o.PlaylistLoaded? && o.playlist.isSearchResult ==>
              r == Of(SEARCH_RESULT, o.playlist.tracks, None, None)
    ensures o.PlaylistLoaded? && !o.playlist.isSearchResult ==>
              r == Of(PLAYLIST_LOADED, o.playlist.tracks, Some(o.playlist.name),
                      Some(IndexOf(o.playlist.tracks, o.playlist.selectedTrack)))
    ensures o.NoMatches? ==> r == Of(NO_MATCHES, [], None, None)
    ensures o.LoadFailedWith? ==> r == Failed(Some(o.e))
  {
    match o
    case TrackLoaded(t) => Of(TRACK_LOADED, [t], None, None)
    case PlaylistLoaded(p) =>
      var name: Option<string> := if !p.isSearchResult then Some(p.name) else None;
      var selected: Option<int> := if !p.isSearchResult then Some(IndexOf(p.tracks, p.selectedTrack)) else None;
      Of(if p.isSearchResult then SEARCH_RESULT else PLAYLIST_LOADED, p.tracks, name, selected)
    case NoMatches => Of(NO_MATCHES, [], None, None)
    case LoadFailedWith(e) => Failed(Some(e))
  }

  /** `CompletableFuture.complete`: only the first completion sticks. */
  function Complete(l: Loader, o: Outcome): (r: Loader)
    ensures r.used == l.used
    ensures l.result.None? ==> r.result == Some(ResultOf(o))
    ensures l.result.Some? ==> r == l
  {
    if l.result.None? then l.(result := Some(ResultOf(o))) else l
  }

  /** A loader serves exactly one lookup: after a successful `load` every
      further `load` fails, and a second callback cannot change the result. */
  lemma SingleUse(l: Loader, a: Outcome, b: Outcome)
    requires Load(l).Ok?
    ensures Load(Load(l).value).Err?
    ensures Complete(Complete(l, a), b).result == Complete(l, a).result
  {
  }

  /** A playlist's selected index points back at its selected track. */
  lemma SelectedIndexFindsTrack(p: AudioPlaylist)
    requires !p.isSearchResult
    ensures var r := ResultOf(PlaylistLoaded(p));
            r.selectedTrack.Some? &&
            (r.selectedTrack.value >= 0 <==> p.selectedTrack.Some? && p.selectedTrack.value in p.tracks) &&
            (r.selectedTrack.value >= 0 ==> r.tracks[r.selectedTrack.value] == p.selectedTrack.value)
  {
  }
}

/** `obsidian.server.util.search.AudioLoader`: the coroutine handler, one
    per lookup, completing a deferred result. Its `noMatches` calls a
    no-argument `LoadResult` constructor that `LoadResult.kt` does not
    declare; the model reads it as the empty NO_MATCHES result. */
module UtilAudioLoader {
  import opened Wrappers
  import opened LoadResult
  import opened LoadOutcome
  import SearchAudioLoader

  function ResultOf(o: Outcome): (r: LoadResult)
    ensures WellFormed(r)
    ensures o.TrackLoaded? ==> r.loadResultType == TRACK_LOADED && r.tracks == [o.track]
    ensures o.PlaylistLoaded? && o.playlist.isSearchResult ==>
              r.loadResultType == SEARCH_RESULT && r.playlistName.None? && r.selectedTrack.None?
    ensures o.PlaylistLoaded? && !o.playlist.isSearchResult ==>
              r.loadResultType == PLAYLIST_LOADED && r.playlistName == Some(o.playlist.name) &&
              r.selectedTrack == Some(IndexOf(o.playlist.tracks, o.playlist.selectedTrack))
    ensures o.PlaylistLoaded? ==> r.tracks == o.playlist.tracks
    ensures o.LoadFailedWith? ==> r.loadResultType == LOAD_FAILED && r.exception == Some(o.e)
  {
    match o
    case TrackLoaded(t) => Of(TRACK_LOADED, [t], None, None)
    case PlaylistLoaded(p) =>
      if p.isSearchResult then Of(SEARCH_RESULT, p.tracks, None, None)
      else Of(PLAYLIST_LOADED, p.tracks, Some(p.name), Some(IndexOf(p.tracks, p.selectedTrack)))
    case NoMatches => Of(NO_MATCHES, [], None, None)
    case LoadFailedWith(e) => Failed(Some(e))
  }

  /** `CompletableDeferred.complete`: the first completion sticks. */
  function Complete(deferred: Option<LoadResult>, o: Outcome): (r: Option<LoadResult>)
    ensures r.Some?
    ensures deferred.None? ==> r == Some(ResultOf(o))
    ensures deferred.Some? ==> r == deferred
  {
    if deferred.None? then Some(ResultOf(o)) else deferred
  }

  /** Both loaders turn every callback into the same result. */
  lemma LoadersAgree(o: Outcome)
    ensures ResultOf(o) == SearchAudioLoader.ResultOf(o)
  {
  }
}

/** The `/loadtracks`, `/decodetrack` and `/decodetracks` routes of
    `obsidian.server.io.rest` (`tracks.kt`) and of the older
    `obsidian.server.io.controllers.Tracks`, which differ only in that the
    older track info has no `source_name`. */
module TracksRoute {
  import opened Wrappers
  import opened KotlinInt
  import opened Json
  import opened Throwables
  import opened LoadResult
  import opened LoadOutcome
  import SearchAudioLoader

  datatype Flavour = Rest | Controller

  datatype Info = Info(
    title: string, author: string, uri: string, identifier: string,
    length: Long, position: Long, isStream: bool, isSeekable: bool,
    sourceName: Option<string>)   // absent from the older controller's info

  datatype Track = Track(track: AudioTrack, info: Info)

  datatype PlaylistInfo = PlaylistInfo(name: string, selectedTrack: Option<int>)

  datatype ExceptionInfo = ExceptionInfo(message: string, severity: Severity)

  datatype Response = Response(loadType: LoadType, playlistInfo: Option<PlaylistInfo>,
                               tracks: seq<Track>, exception: Option<ExceptionInfo>)

  /** `getTrackInfo`: the track's own fields; the REST route names the
      source manager, or "unknown" when the track has none. */
  function TrackInfo(t: AudioTrack, flavour: Flavour): (i: Info)
    ensures i.title == t.title && i.author == t.author && i.uri == t.uri && i.identifier == t.identifier
    ensures i.length == t.duration && i.position == t.position
    ensures i.isStream == t.isStream && i.isSeekable == t.seekable
    ensures flavour == Controller ==> i.sourceName.None?
    ensures flavour == Rest && t.sourceName.Some? ==> i.sourceName == t.sourceName
    ensures flavour == Rest && t.sourceName.None? ==> i.sourceName == Some("unknown")
  {
    Info(t.title, t.author, t.uri, t.identifier, t.duration, t.position, t.isStream, t.seekable,
         match flavour
         case Controller => None
         case Rest => Some(if t.sourceName.Some? then t.sourceName.value else "unknown"))
  }

  /** The two routes' infos agree everywhere but the source name. */
  lemma InfosAgreeButForSource(t: AudioTrack)
    ensures TrackInfo(t, Controller) == TrackInfo(t, Rest).(sourceName := None)
    ensures TrackInfo(t, Rest).sourceName.Some?
  {
  }

  /** `getTrack` over a whole list, in order. */
  function TrackList(ts: seq<AudioTrack>, flavour: Flavour): (r: seq<Track>)
    ensures |r| == |ts|
    ensures forall i :: 0 <= i < |ts| ==> r[i] == Track(ts[i], TrackInfo(ts[i], flavour))
  {
    seq(|ts|, i requires 0 <= i < |ts| => Track(ts[i], TrackInfo(ts[i], flavour)))
  }

  /** The audio tracks a response carries. */
  function TracksOf(ts: seq<Track>): (r: seq<AudioTrack>)
    ensures |r| == |ts| && forall i :: 0 <= i < |ts| ==> r[i] == ts[i].track
  {
    seq(|ts|, i requires 0 <= i < |ts| => ts[i].track)
  }

  /** The `/loadtracks` response for a load result. A failure's entry
      passes the exception's `localizedMessage` (its message) to the
      non-null `message` of `Response.Exception`, so a message-less
      exception throws NullPointerException instead of answering. */
  function Respond(r: LoadResult, flavour: Flavour): (resp: Result<Response, Failure>)
    ensures resp.Err? <==> r.loadResultType == LOAD_FAILED && r.exception.Some? && r.exception.value.exc.message.None?
    ensures resp.Err? ==> resp.error == NullPointer
    ensures resp.Ok? ==> resp.value.loadType == r.loadResultType
    ensures resp.Ok? ==> (resp.value.playlistInfo.Some? <==> r.playlistName.Some?)
    ensures resp.Ok? && resp.value.playlistInfo.Some? ==>
              resp.value.playlistInfo.value == PlaylistInfo(r.playlistName.value, r.selectedTrack)
    ensures resp.Ok? ==> (resp.value.exception.Some? <==> r.loadResultType == LOAD_FAILED && r.exception.Some?)
    ensures resp.Ok? && resp.value.exception.Some? ==>
              r.exception.value.exc.message.Some? &&
              resp.value.exception.value == ExceptionInfo(r.exception.value.exc.message.value, r.exception.value.severity)
    ensures resp.Ok? ==> resp.value.tracks == TrackList(r.tracks, flavour)
  {
    var playlist := if r.playlistName.Some? then Some(PlaylistInfo(r.playlistName.value, r.selectedTrack)) else None;
    if r.loadResultType == LOAD_FAILED && r.exception.Some? then
      match r.exception.value.exc.message
      case None => Err(NullPointer)
      case Some(m) =>
        Ok(Response(r.loadResultType, playlist, TrackList(r.tracks, flavour),
                    Some(ExceptionInfo(m, r.exception.value.severity))))
    else
      Ok(Response(r.loadResultType, playlist, TrackList(r.tracks, flavour), None))
  }

  /** A response loses no track: the result's tracks come back in order. */
  lemma ResponseKeepsTracks(r: LoadResult, flavour: Flavour)
    ensures Respond(r, flavour).Ok? ==> TracksOf(Respond(r, flavour).value.tracks) == r.tracks
  {
    if Respond(r, flavour).Ok? {
      var ts := Respond(r, flavour).value.tracks;
      assert forall i :: 0 <= i < |r.tracks| ==> TracksOf(ts)[i] == r.tracks[i];
    }
  }

  /** What a client sees for each lavaplayer callback; a failure whose
      exception has no message is a NullPointerException. */
  lemma ResponsePerOutcome(o: Outcome, flavour: Flavour)
    ensures var resp := Respond(SearchAudioLoader.ResultOf(o), flavour);
            (o.TrackLoaded? ==> resp.Ok? && |resp.value.tracks| == 1 && resp.value.tracks[0].track == o.track &&
                                resp.value.playlistInfo.None? && resp.value.exception.None?) &&
            (o.PlaylistLoaded? ==> resp.Ok? && (resp.value.playlistInfo.Some? <==> !o.playlist.isSearchResult)) &&
            (o.NoMatches? ==> resp.Ok? && resp.value.tracks == [] && resp.value.playlistInfo.None? &&
                              resp.value.exception.None?) &&
            (o.LoadFailedWith? && o.e.exc.message.Some? ==>
               resp.Ok? && resp.value.tracks == [] && resp.value.playlistInfo.None? &&
               resp.value.exception == Some(ExceptionInfo(o.e.exc.message.value, o.e.severity))) &&
            (o.LoadFailedWith? && o.e.exc.message.None? ==> resp == Err(NullPointer))
  {
  }

  /** `AudioTrackListSerializer.transformDeserialize`: a lone element is
      wrapped into a one-element array; an array passes unchanged. */
  function Normalise(e: Json): (r: Json)
    ensures r.JArray?
    ensures e.JArray? ==> r == e
    ensures !e.JArray? ==> r.items == [e]
  {
    if !e.JArray? then JArray([e]) else e
  }

  /** Normalising twice is normalising once. */
  lemma NormaliseIdempotent(e: Json)
    ensures Normalise(Normalise(e)) == Normalise(e)
  {
  }

  /** Every element of the list through `AudioTrackSerializer`, whose
      decoding (`TrackUtil.decode` of a string) is a parameter here. */
  function DecodeAll(items: seq<Json>, decode: string -> Result<AudioTrack, Failure>): (r: Result<seq<AudioTrack>, Failure>)
    ensures r.Ok? <==> forall i :: 0 <= i < |items| ==> ReadString(items[i]).Ok? && decode(ReadString(items[i]).value).Ok?
    ensures r.Ok? ==> |r.value| == |items| &&
                      forall i :: 0 <= i < |items| ==> r.value[i] == decode(ReadString(items[i]).value).value
    decreases |items|
  {
    if items == [] then Ok([])
    else
      var head :- ReadString(items[0]);
      var track :- decode(head);
      var rest :- DecodeAll(items[1..], decode);
      assert forall i :: 1 <= i < |items| ==> items[i] == items[1..][i - 1];
      Ok([track] + rest)
  }

  /** `/decodetracks`: the body's `tracks`, normalised and decoded, each
      answered with its info. */
  function DecodeTracks(body: Json, decode: string -> Result<AudioTrack, Failure>, flavour: Flavour): (r: Result<seq<Info>, Failure>)
    ensures !Has(body, "tracks") ==> r == Err(SerializationError)
    ensures r.Ok? ==> |r.value| == |Normalise(body.fields["tracks"]).items|
  {
    var raw :- Required(body, "tracks", (j: Json) => Ok(j));
    var tracks :- DecodeAll(Normalise(raw).items, decode);
    Ok(seq(|tracks|, i requires 0 <= i < |tracks| => TrackInfo(tracks[i], flavour)))
  }

  /** A single encoded track is answered exactly as the one-element list
      holding it. */
  lemma LoneTrackActsAsList(body: Json, s: string, decode: string -> Result<AudioTrack, Failure>, flavour: Flavour)
    requires body.JObject?
    ensures DecodeTracks(body.(fields := body.fields["tracks" := JString(s)]), decode, flavour) ==
            DecodeTracks(body.(fields := body.fields["tracks" := JArray([JString(s)])]), decode, flavour)
  {
  }
}

/** `obsidian.server.util.search.CollectionType` and its serializer: the
    three kinds are written as their class names, an unknown kind as its
    own name; decoding is not supported. */
module CollectionType {
  import opened Wrappers

  datatype CollectionType = Album | Playlist | SearchResult | Unknown(name: string)

  /** The reserved names of the three object kinds. */
  predicate Reserved(s: string)
  {
    s == "Album" || s == "Playlist" || s == "SearchResult"
  }

  /** `serialize`: exactly one string per value. */
  function Serialize(c: CollectionType): (s: string)
    ensures c.Unknown? ==> s == c.name
    ensures !c.Unknown? ==> Reserved(s)
  {
    match c
    case Album => "Album"
    case Playlist => "Playlist"
    case SearchResult => "SearchResult"
    case Unknown(n) => n
  }

  /** `deserialize` always throws. */
  function Deserialize(s: string): (r: Result<CollectionType, Failure>)
    ensures r == Err(OperationNotSupported)
  {
    Err(OperationNotSupported)
  }

  /** The reading a decoder would need: a reserved name is its kind, any
      other name an unknown kind. */
  function Named(s: string): (c: CollectionType)
    ensures Reserved(s) <==> !c.Unknown?
  {
    if s == "Album" then Album
    else if s == "Playlist" then Playlist
    else if s == "SearchResult" then SearchResult
    else Unknown(s)
  }

  /** The encoding is reversible exactly on values that are not an unknown
      kind with a reserved name; every string is some value's encoding. */
  lemma SerializeInvertible(c: CollectionType, s: string)
    ensures Named(Serialize(c)) == c <==> !(c.Unknown? && Reserved(c.name))
    ensures Serialize(Named(s)) == s
  {
  }

  /** An unknown kind spelled like a known one is indistinguishable on the
      wire. */
  lemma ReservedNamesCollide()
    ensures Serialize(Unknown("Album")) == Serialize(Album)
  {
  }
}
