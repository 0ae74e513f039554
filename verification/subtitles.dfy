/** The subtitle stage (plugins/subtitles.js): fetch the caption file named by
    the `subtitles` option, convert SubRip to WebVTT when the name ends in
    ".srt", serve the result from a fixed local port and point the single
    queued entry at it with one active text track. */
module Subtitles {
  import opened Wrappers
  import opened Model

  type Bytes = seq<bv8>

  /** The fixed port of the caption responder, as it appears in the address. */
  const PortText: string := "4101"

  /** The id of the one text track the stage installs. */
  const TrackId: int := 1

  /** ASCII lower-casing of one character. */
  function Lower(c: char): char {
    if 'A' <= c <= 'Z' then (c as int + 32) as char else c
  }

  /** ASCII upper-casing of one character. */
  function Upper(c: char): char {
    if 'a' <= c <= 'z' then (c as int - 32) as char else c
  }

  function LowerStr(s: string): (r: string)
    ensures |r| == |s|
    ensures forall i :: 0 <= i < |s| ==> r[i] == Lower(s[i])
  {
    seq(|s|, i requires 0 <= i < |s| => Lower(s[i]))
  }

  function UpperStr(s: string): (r: string)
    ensures |r| == |s|
    ensures forall i :: 0 <= i < |s| ==> r[i] == Upper(s[i])
  {
    seq(|s|, i requires 0 <= i < |s| => Upper(s[i]))
  }

  /** `s.substr(-n)`: the last `n` characters, or all of `s` when shorter. */
  function LastChars(s: string, n: nat): (r: string)
    ensures |r| == if |s| < n then |s| else n
    ensures s == s[..|s| - |r|] + r
  {
    if |s| <= n then s else s[|s| - n..]
  }

  /** An independent, character-by-character reading of the SubRip test: at
      least four characters, ending in a dot and s, r, t in either case. */
  predicate EndsWithSrtAnyCase(path: string) {
    var n := |path|;
    && n >= 4
    && path[n - 4] == '.'
    && (path[n - 3] == 's' || path[n - 3] == 'S')
    && (path[n - 2] == 'r' || path[n - 2] == 'R')
    && (path[n - 1] == 't' || path[n - 1] == 'T')
  }

  /** Lower-casing a string of at most four characters gives ".srt" exactly
      when it is a dot followed by s, r, t in either case. */
  lemma LowerIsSrtSuffix(t: string)
    requires |t| <= 4
    ensures LowerStr(t) == ".srt" <==> EndsWithSrtAnyCase(t)
  {
    if |t| == 4 && EndsWithSrtAnyCase(t) {
      assert LowerStr(t) == ".srt";
    } else if |t| < 4 {
      assert |LowerStr(t)| < 4;
    }
  }

  /** Whether a caption source is SubRip: its last four characters,
      lower-cased, are ".srt". This holds exactly when the name ends in a
      dot and s, r, t in either case. */
  predicate IsSrt(path: string): (b: bool)
    ensures b <==> EndsWithSrtAnyCase(path)
  {
    var t := LastChars(path, 4);
    LowerIsSrtSuffix(t);
    assert |path| >= 4 ==> t == path[|path| - 4..];
    LowerStr(t) == ".srt"
  }

  /** Changing the case of one character keeps it a dot, an s, an r or a t
      exactly when it was one, in either case. */
  lemma CaseMapKeepsSrtChar(x: char, c: char)
    requires c == Lower(x) || c == Upper(x)
    ensures (c == '.') == (x == '.')
    ensures (c == 's' || c == 'S') == (x == 's' || x == 'S')
    ensures (c == 'r' || c == 'R') == (x == 'r' || x == 'R')
    ensures (c == 't' || c == 'T') == (x == 't' || x == 'T')
  {
  }

  /** A string whose every character is the lower- or upper-case form of the
      corresponding character of `path` is SubRip exactly when `path` is. */
  lemma CaseMapKeepsSrt(path: string, q: string)
    requires |q| == |path|
    requires forall i :: 0 <= i < |path| ==> q[i] == Lower(path[i]) || q[i] == Upper(path[i])
    ensures IsSrt(q) <==> IsSrt(path)
  {
    var n := |path|;
    if n >= 4 {
      CaseMapKeepsSrtChar(path[n - 4], q[n - 4]);
      CaseMapKeepsSrtChar(path[n - 3], q[n - 3]);
      CaseMapKeepsSrtChar(path[n - 2], q[n - 2]);
      CaseMapKeepsSrtChar(path[n - 1], q[n - 1]);
    }
    assert IsSrt(q) == EndsWithSrtAnyCase(q);
    assert IsSrt(path) == EndsWithSrtAnyCase(path);
  }

  /** The check ignores ASCII case: ASCII lower- or upper-casing the name
      first never changes the answer, and a SubRip name has at least four
      characters. */
  lemma IsSrtIgnoresCase(path: string)
    ensures IsSrt(LowerStr(path)) <==> IsSrt(path)
    ensures IsSrt(UpperStr(path)) <==> IsSrt(path)
    ensures IsSrt(path) ==> |path| >= 4
  {
    CaseMapKeepsSrt(path, LowerStr(path));
    CaseMapKeepsSrt(path, UpperStr(path));
  }

  /** Where the bytes come from: the file system when the source exists
      locally, an HTTP GET otherwise. */
  datatype Handler = ReadFile | Got

  function PickHandler(isLocal: bool): (h: Handler)
    ensures h == ReadFile <==> isLocal
  {
    if isLocal then ReadFile else Got
  }

  /** Fetch a caption source and convert it when it is SubRip. `fetch` stands
      for the file read or HTTP GET, `convert` for the SubRip-to-WebVTT
      converter; either may fail. */
  function SrtToVtt(
    source: string,
    isLocal: bool,
    fetch: Handler -> Result<Bytes, string>,
    convert: Bytes -> Result<Bytes, string>): (r: Result<Bytes, string>)
    ensures fetch(PickHandler(isLocal)).Failure? ==> r == fetch(PickHandler(isLocal))
    ensures fetch(PickHandler(isLocal)).Success? && !IsSrt(source) ==>
      r == fetch(PickHandler(isLocal))
    ensures fetch(PickHandler(isLocal)).Success? && IsSrt(source) ==>
      r == convert(fetch(PickHandler(isLocal)).value)
  {
    match fetch(PickHandler(isLocal))
    case Failure(e) => Failure(e)
    case Success(content) =>
      if !IsSrt(source) then Success(content) else convert(content)
  }

  /** Only SubRip sources are ever handed to the converter: whenever the
      bytes delivered differ from the bytes fetched, the name ended in ".srt",
      and a successful outcome always needed a successful fetch. */
  lemma OnlySrtIsConverted(
    source: string,
    isLocal: bool,
    fetch: Handler -> Result<Bytes, string>,
    convert: Bytes -> Result<Bytes, string>)
    ensures var r := SrtToVtt(source, isLocal, fetch, convert);
      r.Success? ==> fetch(PickHandler(isLocal)).Success?
    ensures var r := SrtToVtt(source, isLocal, fetch, convert);
      r != fetch(PickHandler(isLocal)) ==> EndsWithSrtAnyCase(source)
  {
  }

  /** The advertised caption address: the `myip` option when given, else the
      detected address of this host, on the fixed port. */
  function Address(myip: Option<string>, detectedIp: string): (r: string)
    ensures var ip := if Given(myip) then myip.value else detectedIp;
      && |r| == 8 + |ip| + |PortText|
      && r[..7] == "http://"
      && r[7..7 + |ip|] == ip
      && r[7 + |ip|..] == ":" + PortText
  {
    "http://" + (if Given(myip) then myip.value else detectedIp) + ":" + PortText
  }

  /** The one text track descriptor pointing at `addr`. */
  function SubtitleTrack(addr: string): Track {
    Track(TrackId, "TEXT", addr, "text/vtt", "English", "en-US", "SUBTITLES")
  }

  /** Install the caption track on the first queued entry; `None` stands for
      the TypeError the source throws when the queue is empty. */
  function AttachSubtitles(playlist: seq<Entry>, addr: string): (r: Option<seq<Entry>>)
    ensures r.None? <==> |playlist| == 0
    ensures r.Some? ==> |r.value| == |playlist| && r.value[1..] == playlist[1..]
    ensures r.Some? ==>
      var e, e' := playlist[0], r.value[0];
      && e'.media.Some?
      && e'.media.value.tracks == Some([SubtitleTrack(addr)])
      && e'.media.value.rest == (if e.media.Some? then e.media.value.rest else map[])
      && e'.activeTrackIds == Some([TrackId])
      && e'.rest == e.rest
  {
    if |playlist| == 0 then None
    else
      var e := playlist[0];
      var media := if e.media.Some? then e.media.value else Media(None, map[]);
      var e' := e.(media := Some(media.(tracks := Some([SubtitleTrack(addr)]))),
                   activeTrackIds := Some([TrackId]));
      Some([e'] + playlist[1..])
  }

  /** The subtitle stage. `isLocal` is whether the source names a local file,
      `fetch` and `convert` stand for the I/O and the converter, `detectedIp`
      for the host's detected address. The HTTP responder is not modelled. */
  function SubtitlesStage(
    ctx: Ctx,
    isLocal: bool,
    fetch: Handler -> Result<Bytes, string>,
    convert: Bytes -> Result<Bytes, string>,
    detectedIp: string): (r: StageResult)
    ensures !r.Stall?
    ensures !Given(ctx.options.subtitles) ==> r == Proceed(ctx)
    ensures Given(ctx.options.subtitles) && ctx.options.playlist.None? ==> r.Crash?
    ensures (Given(ctx.options.subtitles) && ctx.options.playlist.Some? &&
             |ctx.options.playlist.value| > 1) ==> r == Proceed(ctx)
    ensures (Given(ctx.options.subtitles) && ctx.options.playlist.Some? &&
             SrtToVtt(ctx.options.subtitles.value, isLocal, fetch, convert).Failure?) ==>
      r == Proceed(ctx)
    ensures (Given(ctx.options.subtitles) && ctx.options.playlist == Some([]) &&
             SrtToVtt(ctx.options.subtitles.value, isLocal, fetch, convert).Success?) ==>
      r.Crash?
    ensures r.Proceed? && r != Proceed(ctx) ==>
      && r.ctx.mode == ctx.mode
      && r.ctx.options == ctx.options.(
           subtitles := Some(Address(ctx.options.myip, detectedIp)),
           playlist := r.ctx.options.playlist)
      && r.ctx.options.playlist.Some?
      && |r.ctx.options.playlist.value| == 1
      && Given(ctx.options.subtitles)
      && ctx.options.playlist.Some?
      && |ctx.options.playlist.value| == 1
      && SrtToVtt(ctx.options.subtitles.value, isLocal, fetch, convert).Success?
  {
    var o := ctx.options;
    if !Given(o.subtitles) then Proceed(ctx)
    else if o.playlist.None? then Crash("TypeError: playlist is undefined")
    else if |o.playlist.value| > 1 then Proceed(ctx)
    else match SrtToVtt(o.subtitles.value, isLocal, fetch, convert)
      case Failure(_) => Proceed(ctx)
      case Success(_) =>
        var addr := Address(o.myip, detectedIp);
        match AttachSubtitles(o.playlist.value, addr)
        case None => Crash("TypeError: playlist[0] is undefined")
        case Some(pl) =>
          Proceed(ctx.(options := o.(subtitles := Some(addr), playlist := Some(pl))))
  }

  /** A successful fetch of the caption file for a one-entry queue rewrites
      the `subtitles` option to the local address and installs exactly one
      active text track pointing there on that entry. */
  lemma SubtitlesSuccess(
    ctx: Ctx,
    isLocal: bool,
    fetch: Handler -> Result<Bytes, string>,
    convert: Bytes -> Result<Bytes, string>,
    detectedIp: string)
    requires Given(ctx.options.subtitles)
    requires ctx.options.playlist.Some? && |ctx.options.playlist.value| == 1
    requires SrtToVtt(ctx.options.subtitles.value, isLocal, fetch, convert).Success?
    ensures var r := SubtitlesStage(ctx, isLocal, fetch, convert, detectedIp);
      var addr := Address(ctx.options.myip, detectedIp);
      && r.Proceed?
      && r.ctx.options.subtitles == Some(addr)
      && r.ctx.options.playlist == AttachSubtitles(ctx.options.playlist.value, addr)
      && r.ctx.options.playlist.value[0].media.value.tracks == Some([SubtitleTrack(addr)])
      && r.ctx.options.playlist.value[0].activeTrackIds == Some([TrackId])
  {
  }

  /** A remote WebVTT source is not passed through: it is fetched and then
      served again from this host, so the option no longer names the URL. */
  lemma RemoteVttIsReserved(
    ctx: Ctx,
    fetch: Handler -> Result<Bytes, string>,
    convert: Bytes -> Result<Bytes, string>,
    detectedIp: string)
    requires Given(ctx.options.subtitles)
    requires !IsSrt(ctx.options.subtitles.value)
    requires ctx.options.playlist.Some? && |ctx.options.playlist.value| == 1
    requires fetch(Got).Success?
    ensures var r := SubtitlesStage(ctx, false, fetch, convert, detectedIp);
      && r.Proceed?
      && r.ctx.options.subtitles == Some(Address(ctx.options.myip, detectedIp))
  {
  }
}
