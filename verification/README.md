# castnow core, modelled in Dafny

castnow is a command-line Chromecast client. Before playback it runs a chain
of middleware stages over a shared context (resolvers, then the subtitle
stage, then "play first item"), chooses between attaching to a running
session and launching a queue, and then hands the live player to a
controller that watches receiver statuses, advances the playlist when an
item finishes and turns key presses into receiver commands.

This project models that core as pure functions over immutable values:

- `wrappers.dfy` — `Option` (a property that may be `undefined`) and
  `Result` (a Node `(err, value)` callback).
- `model.dfy` — queue entries, the options record, the pipeline context and
  a stage's outcome (`Proceed`, `Crash` for a thrown TypeError, `Stall` for
  a stage that never calls `next`).
- `pipeline.dfy` — the middleware chain, recursively and as a driver loop.
- `subtitles.dfy` — `plugins/subtitles.js`: `isSrt`, fetch-and-convert,
  the caption address, `attachSubtitles` and the stage's guards.
- `launch.dfy` — the "play first item" stage, the attach/launch choice, the
  fixed stage order and an end-to-end lemma into the controller.
- `controller.dfy` — the `ctrl` closure of `index.js`: the `last`
  combinator, the status handler, `nextInPlaylist`, the transport keys,
  volume, debounced seek flush, start-up seek and title.

Every controller operation returns the new session state and the list of
receiver commands it would send; an empty list is a no-op, and process exit
is its own outcome. Replies to volume calls, the player state the session
layer reports, the playback position, the host's detected IP, the file/HTTP
fetch and the SubRip-to-WebVTT converter are parameters.

Behaviour of the code that is easy to assume otherwise, and that the model
keeps as written:

- Advancement on an idle/finished status is edge-triggered for one repeat
  only. The handler returns `undefined` whenever it does not fire, and `last`
  stores that as the memo, so a run of idle/finished statuses after playback
  fires on the 1st, 3rd, 5th, ... (`Controller.FinishedRunFiresAlternately`,
  `Controller.ThreeFinishedAdvanceTwice`). What holds is that no two
  consecutive statuses both fire (`Controller.NoTwoConsecutiveAdvances`).
- A remote `.vtt` caption URL is not passed through: it is fetched and served
  again from this host, and the option is rewritten to the local address
  (`Subtitles.RemoteVttIsReserved`).
- With `--subtitles` but no playlist option (attach mode), the subtitle stage
  reads `.length` of `undefined` and throws; with an empty playlist it throws
  inside `attachSubtitles` after a successful fetch. Both are `Crash`
  outcomes here.

## Model

| member | source | states |
|---|---|---|
| Pipeline.Run | index.js:231-245 | With no stages the context goes through untouched. A chain that does not reach its end stops with the outcome of one of its stages, and a first stage that does not continue ends the chain with its own outcome |
| Pipeline.Drive | index.js:231-245 | Running the registered stages one after another in a loop gives the same outcome as the chain definition: each stage gets the context the previous one handed on, and the first crash or stall ends the chain |
| Pipeline.RunAppend | index.js:231-245 | Running two groups of stages back to back is the same as running them as one chain, provided the first group reached its end |
| Pipeline.DecliningStagesPassThrough | index.js:231-245 | Stages that all decline on a context hand that context on unchanged, and the chain still reaches its end |
| Subtitles.IsSrt | plugins/subtitles.js:22-24 | isSrt (the last four characters, lower-cased, equal ".srt") holds exactly when the name has at least four characters and ends in a dot followed by s, r, t in any case |
| Subtitles.IsSrtIgnoresCase | plugins/subtitles.js:22-24 | ASCII lower- or upper-casing a name first never changes isSrt, and an SRT name is at least four characters long |
| Subtitles.PickHandler | plugins/subtitles.js:10 | The file system is read exactly when the source exists locally; otherwise an HTTP GET is used |
| Subtitles.SrtToVtt | plugins/subtitles.js:9-20 | A failed read or fetch is forwarded as the error. Content of a non-SRT source is delivered byte for byte. Content of an SRT source goes through the converter, whose own failure is forwarded |
| Subtitles.OnlySrtIsConverted | plugins/subtitles.js:13-18 | A success needs a successful fetch, and whenever the delivered result differs from the fetched one, the name ended in .srt |
| Subtitles.Address | plugins/subtitles.js:57-58 | The address is "http://", then myip when it is a non-empty string (otherwise the detected IP), then ":4101"; the IP can be read back from the middle |
| Subtitles.AttachSubtitles | plugins/subtitles.js:26-40 | An empty queue throws. Otherwise the first entry gets exactly one TEXT track, id 1, pointing at the address with type text/vtt, and activeTrackIds [1]. A missing media object is created. Other media fields, other entry fields and all later entries are unchanged |
| Subtitles.SubtitlesStage | plugins/subtitles.js:49-73 | The stage never stalls. It passes on the context unchanged when no subtitles are requested, when more than one entry is queued, or when the fetch or conversion fails. It throws when the playlist is absent, and when the queue is empty after a successful fetch. When it rewrites the context, the only changes are the subtitles option (now the local address) and the single queued entry |
| Subtitles.SubtitlesSuccess | plugins/subtitles.js:53-71 | When a fetch succeeds for a one-entry queue, the option is rewritten to the local address and that entry carries the one active text track |
| Subtitles.RemoteVttIsReserved | plugins/subtitles.js:53-71 | A successfully fetched remote non-SRT source is still re-served: the option becomes the local address, not the original URL |
| Launch.SelectMode | index.js:256-260 | The client attaches exactly when no playlist option is given; any playlist, even an empty one, launches |
| Launch.Overlay | index.js:242 | The merge keeps every option field and overwrites exactly the fields the entry carries with the entry's values |
| Launch.PlayFirst | index.js:240-245 | Outside launch mode the context passes through unchanged. In launch mode the stage throws exactly when the playlist is absent. The mode never changes and the stage never stalls |
| Launch.PlayFirstPromotesHead | index.js:240-245 | With a non-empty queue, the queue loses exactly its first element and the rest keep their order. The options become the old options with that element merged over them, so its fields sit on the options and every field it does not carry keeps its value, including subtitles, myip, seek and disableSeek |
| Launch.PlayFirstEmptyQueue | index.js:242-243 | An empty queue in launch mode passes through unchanged |
| Launch.Stages | index.js:231-245 | The chain is the resolvers, then the subtitle stage, then "play first item" last |
| Launch.DecliningResolvers | index.js:231-245 | When every resolver declines, the whole chain behaves as the subtitle stage followed by "play first item" |
| Launch.AttachWithoutSubtitlesIsIdentity | index.js:240-245 | When attaching with no subtitles and every resolver declining, the chain leaves the context exactly as it was |
| Launch.LaunchHandsTailToController | index.js:239-260 | Take a launch with no subtitles in which every resolver declines. The options end up carrying the first entry, and the controller starts in launch mode with the remaining entries in order |
| Controller.Start | index.js:76-124 | A fresh controller has no volume shadow, no memo and no pending seek, and keeps the context's mode and queue. The start-up seek is armed exactly when a seek target is given and seeking is not disabled. It asks for the volume and then the status |
| Controller.OnInitialVolume | index.js:84-86 | The first volume answer replaces the shadow even when the call failed, which leaves no shadow; nothing else changes |
| Controller.Last | index.js:60-67 | Each call of the wrapped handler receives the value the previous call returned, the initial value for the first call |
| Controller.StatusMemo | index.js:137-143 | The handler fires, returning the status, exactly when the status is IDLE with reason FINISHED and the previous return value was not an IDLE status; otherwise it returns undefined |
| Controller.NotFinishedResetsMemo | index.js:138-139 | A status that is not IDLE, or IDLE for another reason, never fires and leaves undefined as the memo |
| Controller.NoTwoConsecutiveAdvances | index.js:137-143 | In any sequence of statuses, no two consecutive ones both fire |
| Controller.FinishedRunFiresAlternately | index.js:137-143 | After a non-idle status, a run of IDLE/FINISHED statuses fires exactly at the odd positions of the run |
| Controller.ThreeFinishedAdvanceTwice | index.js:137-143 | The sequence PLAYING, then three IDLE/FINISHED statuses, fires on the 1st and 3rd finished status |
| Controller.NextInPlaylist | index.js:126-135 | Outside launch mode it sends nothing and changes nothing. In launch mode it exits exactly when the queue is empty. Otherwise it sends Stop then Load of the head, and the queue becomes its tail with nothing else changed |
| Controller.NextDrainsInOrder | index.js:126-135 | In launch mode, k advances with k no larger than the queue load exactly the first k entries in order and leave the rest; one more advance than there are entries exits |
| Controller.OnStatus | index.js:137-143 | A status that does not fire resets the memo and sends nothing. This covers a status that is not IDLE/FINISHED and an IDLE/FINISHED status while the memo is an IDLE status. A firing status becomes the memo and advances the queue. Only the queue and the memo ever change |
| Controller.AdvanceBlocksNextStatus | index.js:137-143 | In any mode, once a status has advanced the queue, the very next status sends nothing and clears the memo |
| Controller.AttachedStatusesFollowLast | index.js:60-67 | In attach mode a run of statuses sends no commands, and the memo kept is the last value threaded by last through the handler |
| Controller.PlayPause | index.js:147-153 | It sends Pause exactly when PLAYING, Play exactly when PAUSED, and nothing in any other state |
| Controller.PlayOnly | index.js:156-160 | It sends Play exactly when PAUSED, and nothing otherwise |
| Controller.PauseOnly | index.js:163-167 | It sends Pause exactly when PLAYING, and nothing otherwise |
| Controller.ToggleMute | index.js:170-184 | With no shadow it sends nothing and changes nothing. Otherwise it sends Unmute when muted and Mute when not. The shadow becomes the reply only when the call succeeds |
| Controller.VolumeUp | index.js:187-193 | It sends nothing exactly when there is no shadow or the level is at least 1. Otherwise it sends one SetVolume above the level and at most 1: the level plus 0.05, or 1. The shadow follows a successful reply only |
| Controller.VolumeDown | index.js:196-202 | It sends nothing exactly when there is no shadow or the level is at most 0. Otherwise it sends one SetVolume below the level and at least 0: the level minus 0.05, or 0. The shadow follows a successful reply only |
| Controller.VolumeUpSettlesAtOne | index.js:187-193 | From any level in [0, 1], with a receiver that confirms each request, enough presses end at exactly 1 with at most one command per press, and further presses send nothing |
| Controller.VolumeDownSettlesAtZero | index.js:196-202 | From any level in [0, 1], with a receiver that confirms each request, enough presses end at exactly 0 with at most one command per press, and further presses send nothing |
| Controller.VolumeUpFromNearTop | index.js:187-193 | From 0.98 one press requests exactly 1, and the next press sends nothing |
| Controller.SeekFlush | index.js:88-93 | A zero offset sends nothing. Any other offset sends one Seek to the position in seconds plus the offset, raised to 0 when that would be negative |
| Controller.SeekPress | index.js:220-227 | A seek key press changes only the pending offset |
| Controller.Flush | index.js:88-93 | When the accumulated offset is flushed, nothing is sent exactly when it is 0. Otherwise exactly one Seek is sent, to the position in seconds plus the offset, or to 0 if that is negative. The offset is reset to 0 and nothing else changes |
| Controller.SeekPressesAccumulate | index.js:220-227 | A burst of presses adds 30 per right press and subtracts 30 per left press from the pending offset, and touches nothing else |
| Controller.SeekBurstCoalesces | index.js:88-93 | A burst of presses inside one window sends at most one seek, by the net offset, and a burst that cancels out sends nothing |
| Controller.ThreeRightsSeekNinety | index.js:225-227 | Three right presses inside one window send a single Seek 90 seconds past the current position |
| Controller.OnPlaying | index.js:118-122 | Every playing event asks for the status. Only while the start-up seek is armed does it also seek to the target, and the event always disarms it |
| Controller.InitialSeekAtMostOnce | index.js:120-122 | A second playing event never repeats the start-up seek |
| Controller.Title | index.js:95-110 | A title exists exactly when the status has media metadata with a non-empty title. It ends with that title. It is "artist - title" when the artist is non-empty, and the title alone otherwise |
| Controller.Dispatch | index.js:145-228 | A key press exits exactly when it is next, in launch mode, on an empty queue. It sends at most two commands. Play, pause, play/pause, stop and quit never change the state, and the first three send nothing, Play or Pause |
| Controller.DispatchFrame | index.js:145-228 | Each key touches only its own part of the state. Only next moves the queue or exits. Only the volume keys change the shadow and only the seek keys the pending offset. No key changes the mode, memo or start-up seek. Stop is unconditional and quit does nothing |
| Controller.NoShadowNoVolumeCommands | index.js:170-202 | Before the volume shadow exists, the mute and volume keys send nothing and change nothing |

## Left out

- The receiver session and transport (`chromecast-player`): commands are values in a list. Statuses, volume replies, the playback position and the player state come in as parameters. The stop callback inside `nextInPlaylist` is treated as running at once, so Stop and Load are sent together and the queue shrinks in the same step.
- The debounce timer of `debounced-seeker`, a library outside this model. Its 500 ms quiescence window and timer reset are not modelled. The pending offset stands for what the library sums between flushes, and `Flush` is the callback it finally calls.
- `unformatTime` is not part of this model. The start-up seek target comes in already converted to seconds.
- Subtitle I/O: `fs.existsSync`, `fs.readFile`, `got`, `srt2vtt` and `internal-ip` are parameters. The HTTP responder on port 4101 (plugins/subtitles.js:59-67) is not modelled. Only the address it is advertised under is.
- The resolver plugins (directories, torrent, localfile, youtubeplaylist, youtube, transcode) are not part of this model. They appear only as opaque stages in their fixed order.
- Console output is not modelled: the player error message, "lost connection" on `closed`, the coloured title line and debug logging. `Title` returns the composed title rather than printing it.
- Terminal and CLI handling: keypress, playerui, minimist and the commented-out help text. `setup(...).then` is modelled only through the attach/launch choice.
- Floating point: volume levels are exact reals. The JavaScript `level ± 0.05` can drift and may not land exactly on 1 or 0.
- Launch.Overlay: queue entries are typed. An entry field that happens to be named `playlist`, `subtitles`, `myip`, `seek` or `disableSeek` would overwrite that option in the source; here it lands among the untyped option fields instead.
- Controller.Start: an absent playlist option is read as an empty queue. In the source, launch mode with no playlist would throw at `playlist.length` in `nextInPlaylist`. Mode selection never launches without a playlist.
- JavaScript truthiness is modelled only for strings, where an empty string counts as absent. A volume reply missing its level (giving NaN arithmetic), player states other than the four known ones, and non-string option values are not modelled.
- Subtitles.IsSrtIgnoresCase: case mapping is ASCII only. JavaScript's `toUpperCase` also maps some other characters into ASCII letters; for example, the long s 'ſ' becomes 'S'. So in the source, upper-casing a name first can change the answer ("x.ſrt" is not SubRip, "X.SRT" is). `IsSrt` itself is exact, because only 'S', 'R' and 'T' lower-case to 's', 'r' and 't'.
- Subtitles.SubtitlesStage: the file read or HTTP fetch and the converter are assumed always to call back, with content or an error. In the source, a `got` request that never answers leaves `next` uncalled, and the chain hangs there. The stage here never stalls by itself.
- Controller.ToggleMute: the reply to `mute`/`unmute` is assumed to arrive before the next event. In the source the shadow is refreshed later, in the callback, so two quick presses both read the old shadow and send the same command twice.
- Controller.VolumeUp: the reply to `setVolume` is assumed to arrive before the next event. In the source, two quick presses before the reply send the same SetVolume twice. `VolumeUpSettlesAtOne` rests on the same assumption.
- Controller.VolumeDown: same assumption as for `VolumeUp`, and `VolumeDownSettlesAtZero` rests on it too.
