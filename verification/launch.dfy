/** The launch side of index.js: choosing between joining a running session
    and launching a queue, the final "play first item" stage, and the fixed
    order in which the stages run. */
module Launch {
  import opened Wrappers
  import opened Model
  import Pipeline
  import Subtitles
  import Controller

  /** Join the running session when no playlist option was given, otherwise
      launch a fresh queue (an empty list still launches). */
  function SelectMode(opts: Options): (m: Mode)
    ensures m == Attach <==> opts.playlist.None?
    ensures m == Launch <==> opts.playlist.Some?
  {
    if opts.playlist.None? then Attach else Launch
  }

  /** Shallow merge of an entry's fields over the options, the entry
      winning on every field it has. */
  function Overlay(o: Options, e: Entry): (r: Options)
    ensures r.media == (if e.media.Some? then e.media else o.media)
    ensures r.activeTrackIds == (if e.activeTrackIds.Some? then e.activeTrackIds else o.activeTrackIds)
    ensures r.rest.Keys == o.rest.Keys + e.rest.Keys
    ensures forall k :: k in e.rest ==> r.rest[k] == e.rest[k]
    ensures forall k :: k in o.rest && k !in e.rest ==> r.rest[k] == o.rest[k]
    ensures r.(media := o.media, activeTrackIds := o.activeTrackIds, rest := o.rest) == o
  {
    o.(media := if e.media.Some? then e.media else o.media,
       activeTrackIds := if e.activeTrackIds.Some? then e.activeTrackIds else o.activeTrackIds,
       rest := o.rest + e.rest)
  }

  /** The last stage: in launch mode, merge the head of the queue into the
      options and drop it from the queue. Reading the head of an absent
      playlist throws. */
  function PlayFirst(ctx: Ctx): (r: StageResult)
    ensures !r.Stall?
    ensures ctx.mode != Launch ==> r == Proceed(ctx)
    ensures ctx.mode == Launch ==> (r.Crash? <==> ctx.options.playlist.None?)
    ensures r.Proceed? ==> r.ctx.mode == ctx.mode
  {
    if ctx.mode != Launch then Proceed(ctx)
    else match ctx.options.playlist
      case None => Crash("TypeError: playlist is undefined")
      case Some(pl) =>
        if |pl| == 0 then Proceed(ctx)
        else Proceed(ctx.(options := Overlay(ctx.options, pl[0]).(playlist := Some(pl[1..]))))
  }

  /** In launch mode the queue loses exactly its first element, the rest in
      order, and every field of that element now sits on the options; the
      fields the entry does not carry keep their values. */
  lemma PlayFirstPromotesHead(ctx: Ctx)
    requires ctx.mode == Launch
    requires ctx.options.playlist.Some? && |ctx.options.playlist.value| > 0
    ensures var pl := ctx.options.playlist.value;
      var r := PlayFirst(ctx);
      && r.Proceed?
      && r.ctx.options.playlist == Some(pl[1..])
      && [pl[0]] + r.ctx.options.playlist.value == pl
      && (pl[0].media.Some? ==> r.ctx.options.media == pl[0].media)
      && (pl[0].activeTrackIds.Some? ==> r.ctx.options.activeTrackIds == pl[0].activeTrackIds)
      && (forall k :: k in pl[0].rest ==> k in r.ctx.options.rest && r.ctx.options.rest[k] == pl[0].rest[k])
      && r.ctx.options.subtitles == ctx.options.subtitles
      && r.ctx.options.myip == ctx.options.myip
      && r.ctx.options.seek == ctx.options.seek
      && r.ctx.options.disableSeek == ctx.options.disableSeek
    ensures var pl := ctx.options.playlist.value;
      PlayFirst(ctx) == Proceed(ctx.(options := Overlay(ctx.options, pl[0]).(playlist := Some(pl[1..]))))
  {
  }

  /** An empty queue in launch mode goes through unchanged. */
  lemma PlayFirstEmptyQueue(ctx: Ctx)
    requires ctx.mode == Launch && ctx.options.playlist == Some([])
    ensures PlayFirst(ctx) == Proceed(ctx)
  {
  }

  /** The stage order: the resolver stages (directories, torrent, local
      file, video playlist, video, transcode), then subtitles, then "play
      first item". The resolvers are not part of this model and come in as
      opaque stages. */
  function Stages(
    resolvers: seq<Pipeline.Stage>,
    isLocal: bool,
    fetch: Subtitles.Handler -> Result<Subtitles.Bytes, string>,
    convert: Subtitles.Bytes -> Result<Subtitles.Bytes, string>,
    detectedIp: string): (r: seq<Pipeline.Stage>)
    ensures |r| == |resolvers| + 2
    ensures r[..|resolvers|] == resolvers
    ensures r[|resolvers| + 1] == PlayFirst
    ensures forall c :: (r[|resolvers|](c) == Subtitles.SubtitlesStage(c, isLocal, fetch, convert, detectedIp))
  {
    resolvers + [
      (c: Ctx) => Subtitles.SubtitlesStage(c, isLocal, fetch, convert, detectedIp),
      PlayFirst]
  }

  /** When every resolver declines, the whole chain is the subtitle stage
      followed by "play first item". */
  lemma {:induction false} DecliningResolvers(
    resolvers: seq<Pipeline.Stage>,
    isLocal: bool,
    fetch: Subtitles.Handler -> Result<Subtitles.Bytes, string>,
    convert: Subtitles.Bytes -> Result<Subtitles.Bytes, string>,
    detectedIp: string,
    ctx: Ctx)
    requires forall i :: 0 <= i < |resolvers| ==> resolvers[i](ctx) == Proceed(ctx)
    ensures var r := Pipeline.Run(Stages(resolvers, isLocal, fetch, convert, detectedIp), ctx);
      var s := Subtitles.SubtitlesStage(ctx, isLocal, fetch, convert, detectedIp);
      r == (if s.Proceed? then PlayFirst(s.ctx) else s)
  {
    var all := Stages(resolvers, isLocal, fetch, convert, detectedIp);
    var tail := all[|resolvers|..];
    assert all == resolvers + tail;
    Pipeline.RunAppend(resolvers, tail, ctx);
    Pipeline.DecliningStagesPassThrough(resolvers, ctx);
    var sub := Subtitles.SubtitlesStage(ctx, isLocal, fetch, convert, detectedIp);
    assert tail[0](ctx) == sub;
    if sub.Proceed? {
      assert tail[1..] == [PlayFirst];
      var last := PlayFirst(sub.ctx);
      assert Pipeline.Run(tail[1..], sub.ctx) == Pipeline.Then(last, []);
    }
  }

  /** Without a subtitle option and outside launch mode, declining resolvers
      leave the context exactly as it was. */
  lemma AttachWithoutSubtitlesIsIdentity(
    resolvers: seq<Pipeline.Stage>,
    isLocal: bool,
    fetch: Subtitles.Handler -> Result<Subtitles.Bytes, string>,
    convert: Subtitles.Bytes -> Result<Subtitles.Bytes, string>,
    detectedIp: string,
    ctx: Ctx)
    requires forall i :: 0 <= i < |resolvers| ==> resolvers[i](ctx) == Proceed(ctx)
    requires ctx.mode == Attach && !Given(ctx.options.subtitles)
    ensures Pipeline.Run(Stages(resolvers, isLocal, fetch, convert, detectedIp), ctx) == Proceed(ctx)
  {
    DecliningResolvers(resolvers, isLocal, fetch, convert, detectedIp, ctx);
  }

  /** End to end, for a launch without subtitles whose resolvers all
      decline: the options end up carrying the first entry, and the
      controller takes over the rest of the queue in order. */
  lemma LaunchHandsTailToController(
    resolvers: seq<Pipeline.Stage>,
    isLocal: bool,
    fetch: Subtitles.Handler -> Result<Subtitles.Bytes, string>,
    convert: Subtitles.Bytes -> Result<Subtitles.Bytes, string>,
    detectedIp: string,
    ctx: Ctx)
    requires forall i :: 0 <= i < |resolvers| ==> resolvers[i](ctx) == Proceed(ctx)
    requires ctx.mode == SelectMode(ctx.options)
    requires ctx.options.playlist.Some? && |ctx.options.playlist.value| > 0
    requires !Given(ctx.options.subtitles)
    ensures var pl := ctx.options.playlist.value;
      var r := Pipeline.Run(Stages(resolvers, isLocal, fetch, convert, detectedIp), ctx);
      && r.Proceed?
      && r.ctx.options == Overlay(ctx.options, pl[0]).(playlist := Some(pl[1..]))
      && Controller.Start(r.ctx).session.mode == Launch
      && Controller.Start(r.ctx).session.playlist == pl[1..]
  {
    DecliningResolvers(resolvers, isLocal, fetch, convert, detectedIp, ctx);
  }
}
