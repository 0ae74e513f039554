/** The entities shared by the resolution pipeline and the playback
    controller: queue entries, the options record every stage reads and
    rewrites, the pipeline context and what a stage does with it. */
module Model {
  import opened Wrappers

  /** An arbitrary JSON-like option or entry field the core does not read. */
  datatype Json =
    | JNull
    | JBool(b: bool)
    | JNum(n: real)
    | JStr(s: string)
    | JArr(items: seq<Json>)
    | JObj(fields: map<string, Json>)

  /** JavaScript truthiness of an optional string: absent and "" are falsy. */
  predicate Given(o: Option<string>) {
    o.Some? && o.value != ""
  }

  /** A receiver media track descriptor. */
  datatype Track = Track(
    trackId: int,
    kind: string,
    trackContentId: string,
    trackContentType: string,
    name: string,
    language: string,
    subtype: string)

  /** The `media` object of an entry: its track list and every other field. */
  datatype Media = Media(tracks: Option<seq<Track>>, rest: map<string, Json>)

  /** A queue entry produced by the resolver stages. */
  datatype Entry = Entry(
    media: Option<Media>,
    activeTrackIds: Option<seq<int>>,
    rest: map<string, Json>)

  datatype Mode = Attach | Launch

  /** The options record: the fields the core reads, the two entry fields a
      queue entry may overlay onto it, and every other field. */
  datatype Options = Options(
    playlist: Option<seq<Entry>>,
    subtitles: Option<string>,
    myip: Option<string>,
    seek: Option<string>,
    disableSeek: bool,
    media: Option<Media>,
    activeTrackIds: Option<seq<int>>,
    rest: map<string, Json>)

  /** The context threaded through every pipeline stage. */
  datatype Ctx = Ctx(mode: Mode, options: Options)

  /** What a stage does: call `next` with a (possibly rewritten) context,
      throw, or never call `next` at all. */
  datatype StageResult = Proceed(ctx: Ctx) | Crash(reason: string) | Stall
}
