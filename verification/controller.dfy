/** The playback controller of index.js: it watches receiver statuses,
    advances the queue when the current item finishes, keeps a shadow of the
    receiver's volume and turns key presses into receiver commands. Every
    operation returns the new session state and the commands it would issue;
    an empty command list is a no-op. */
module Controller {
  import opened Wrappers
  import opened Model

  datatype PlayerState = Idle | Playing | Paused | Buffering

  datatype IdleReason = Finished | Cancelled | Interrupted | Error

  datatype Metadata = Metadata(title: Option<string>, artist: Option<string>)

  datatype StatusMedia = StatusMedia(metadata: Option<Metadata>)

  /** A receiver status as delivered by a `status` event or `getStatus`. */
  datatype Status = Status(
    playerState: PlayerState,
    idleReason: Option<IdleReason>,
    media: Option<StatusMedia>)

  /** The receiver's volume as reported in a volume reply. */
  datatype Volume = Volume(level: real, muted: bool)

  /** Requests the controller sends to the receiver. */
  datatype Command =
    | Load(entry: Entry)
    | Stop
    | Play
    | Pause
    | Mute
    | Unmute
    | SetVolume(level: real)
    | Seek(seconds: real)
    | GetVolume
    | GetStatus

  /** The controller's own state: the mode, the remaining queue, the volume
      shadow (absent until the receiver has answered), the memo threaded
      through the status handler, the seek offset waiting for the debounce
      timer and whether the start-up seek is still due. */
  datatype Session = Session(
    mode: Mode,
    playlist: seq<Entry>,
    volume: Option<Volume>,
    memo: Option<Status>,
    pendingSeek: int,
    seekArmed: bool)

  /** What handling one event leads to: a new state and the commands sent,
      or process exit. */
  datatype Reaction = Continue(session: Session, cmds: seq<Command>) | Exit

  /** Relative step of one seek key press, in seconds. */
  const SeekStep: int := 30

  /** Step of one volume key press. */
  const VolumeStep: real := 0.05

  // ---------------------------------------------------------------------
  // Start-up

  /** The controller as set up on a fresh session: no volume shadow yet,
      memo undefined, the start-up seek armed when a seek target was given
      and seeking is not disabled; it asks for the volume and the status
      (for the title). An absent playlist is read as empty. */
  function Start(ctx: Ctx): (r: Reaction)
    ensures r.Continue? && r.cmds == [GetVolume, GetStatus]
    ensures r.session.volume.None? && r.session.memo.None? && r.session.pendingSeek == 0
    ensures r.session.mode == ctx.mode
    ensures r.session.seekArmed <==> !ctx.options.disableSeek && Given(ctx.options.seek)
    ensures ctx.options.playlist.Some? ==> r.session.playlist == ctx.options.playlist.value
  {
    Continue(
      Session(ctx.mode, ctx.options.playlist.GetOr([]), None, None, 0,
              !ctx.options.disableSeek && Given(ctx.options.seek)),
      [GetVolume, GetStatus])
  }

  /** The answer to the initial volume request replaces the shadow
      unconditionally: a failed request leaves no shadow at all. */
  function OnInitialVolume(s: Session, reply: Result<Volume, string>): (s': Session)
    ensures s'.volume.Some? <==> reply.Success?
    ensures reply.Success? ==> s'.volume.value == reply.value
    ensures s'.(volume := s.volume) == s
  {
    s.(volume := if reply.Success? then Some(reply.value) else None)
  }

  // ---------------------------------------------------------------------
  // The `last` combinator and the status handler

  /** Calls of a handler wrapped by `last`: each call receives its argument
      and the value the previous call returned (`l` for the first call); the
      result lists what every call returned. */
  function Last<A, M>(fn: (A, M) -> M, l: M, args: seq<A>): (outs: seq<M>)
    ensures |outs| == |args|
    ensures |args| > 0 ==> outs[0] == fn(args[0], l)
    ensures forall i :: 0 < i < |args| ==> outs[i] == fn(args[i], outs[i - 1])
    decreases |args|
  {
    if |args| == 0 then []
    else
      var o := fn(args[0], l);
      [o] + Last(fn, o, args[1..])
  }

  /** The status handler wrapped by `last`: it fires (returns the status)
      exactly when the player is idle because the item finished and the
      value the previous call returned was not an idle status; otherwise it
      returns undefined. */
  function StatusMemo(status: Status, memo: Option<Status>): (r: Option<Status>)
    ensures r.Some? <==>
      && status.playerState == Idle
      && status.idleReason == Some(Finished)
      && !(memo.Some? && memo.value.playerState == Idle)
    ensures r.Some? ==> r.value == status
  {
    if status.playerState != Idle then None
    else if status.idleReason != Some(Finished) then None
    else if memo.Some? && memo.value.playerState == Idle then None
    else Some(status)
  }

  /** A status that is not idle-because-finished never fires and leaves
      undefined behind as the memo, whatever the memo was. */
  lemma NotFinishedResetsMemo(status: Status, memo: Option<Status>)
    requires status.playerState != Idle || status.idleReason != Some(Finished)
    ensures StatusMemo(status, memo).None?
  {
  }

  /** No two consecutive statuses both fire: after firing, the memo is the
      idle status itself, which blocks the next call. */
  lemma NoTwoConsecutiveAdvances(statuses: seq<Status>)
    ensures var outs := Last(StatusMemo, None, statuses);
      forall i :: 0 < i < |outs| ==> !(outs[i - 1].Some? && outs[i].Some?)
  {
    var outs := Last(StatusMemo, None, statuses);
    forall i | 0 < i < |outs|
      ensures !(outs[i - 1].Some? && outs[i].Some?)
    {
      assert outs[i] == StatusMemo(statuses[i], outs[i - 1]);
      var prev := if i == 1 then None else outs[i - 2];
      assert outs[i - 1] == StatusMemo(statuses[i - 1], prev);
    }
  }

  /** `n` copies of `x`. */
  function Repeat<T>(x: T, n: nat): (r: seq<T>)
    ensures |r| == n
    ensures forall i :: 0 <= i < n ==> r[i] == x
  {
    if n == 0 then [] else [x] + Repeat(x, n - 1)
  }

  /** Edge triggering holds for one repeat only: after a non-idle status, a
      run of idle-because-finished statuses fires on every other one (the
      1st, 3rd, 5th, ...), because a call that does not fire leaves
      undefined as the memo. */
  lemma {:induction false} FinishedRunFiresAlternately(p: Status, f: Status, n: nat, i: nat)
    requires p.playerState != Idle
    requires f.playerState == Idle && f.idleReason == Some(Finished)
    requires i <= n
    ensures var outs := Last(StatusMemo, None, [p] + Repeat(f, n));
      outs[i].Some? <==> i % 2 == 1
  {
    var args := [p] + Repeat(f, n);
    var outs := Last(StatusMemo, None, args);
    if i == 0 {
      assert outs[0] == StatusMemo(p, None);
    } else {
      FinishedRunFiresAlternately(p, f, n, i - 1);
      assert args[i] == Repeat(f, n)[i - 1] == f;
      if i > 1 {
        assert args[i - 1] == Repeat(f, n)[i - 2] == f;
        assert outs[i - 1] == StatusMemo(f, outs[i - 2]);
      } else {
        assert outs[0] == StatusMemo(p, None) == None;
      }
      assert outs[i] == StatusMemo(f, outs[i - 1]);
    }
  }

  /** The sequence running, finished, finished, finished advances twice
      (on the 1st and 3rd finished status), not once. */
  lemma ThreeFinishedAdvanceTwice(p: Status, f: Status)
    requires p.playerState == Playing
    requires f.playerState == Idle && f.idleReason == Some(Finished)
    ensures var outs := Last(StatusMemo, None, [p, f, f, f]);
      outs == [None, Some(f), None, Some(f)]
  {
    assert [p, f, f, f] == [p] + Repeat(f, 3);
    var outs := Last(StatusMemo, None, [p, f, f, f]);
    FinishedRunFiresAlternately(p, f, 3, 0);
    FinishedRunFiresAlternately(p, f, 3, 1);
    FinishedRunFiresAlternately(p, f, 3, 2);
    FinishedRunFiresAlternately(p, f, 3, 3);
  }

  // ---------------------------------------------------------------------
  // Queue advancement

  /** Advance the queue: nothing outside launch mode; exit the process when
      the queue is empty; otherwise stop, load the head and drop it. */
  function NextInPlaylist(s: Session): (r: Reaction)
    ensures s.mode != Launch ==> r == Continue(s, [])
    ensures s.mode == Launch ==> (r.Exit? <==> |s.playlist| == 0)
    ensures r.Continue? && s.mode == Launch ==>
      && r.cmds == [Stop, Load(s.playlist[0])]
      && [s.playlist[0]] + r.session.playlist == s.playlist
      && r.session == s.(playlist := r.session.playlist)
  {
    if s.mode != Launch then Continue(s, [])
    else if |s.playlist| == 0 then Exit
    else Continue(s.(playlist := s.playlist[1..]), [Stop, Load(s.playlist[0])])
  }

  /** The entries loaded by a command list, in order. */
  function Loaded(cmds: seq<Command>): seq<Entry>
    decreases |cmds|
  {
    if |cmds| == 0 then []
    else (if cmds[0].Load? then [cmds[0].entry] else []) + Loaded(cmds[1..])
  }

  lemma {:induction false} LoadedAppend(a: seq<Command>, b: seq<Command>)
    ensures Loaded(a + b) == Loaded(a) + Loaded(b)
    decreases |a|
  {
    if |a| == 0 {
      assert a + b == b;
    } else {
      assert (a + b)[0] == a[0];
      assert (a + b)[1..] == a[1..] + b;
      LoadedAppend(a[1..], b);
    }
  }

  /** `k` consecutive `next` key presses; the commands are concatenated and
      an exit ends the run. */
  function NextTimes(s: Session, k: nat): Reaction
    decreases k
  {
    if k == 0 then Continue(s, [])
    else match NextInPlaylist(s)
      case Exit => Exit
      case Continue(s1, c1) =>
        match NextTimes(s1, k - 1)
        case Exit => Exit
        case Continue(s2, c2) => Continue(s2, c1 + c2)
  }

  /** The queue is played strictly first-in first-out: `k` advances load
      exactly the first `k` entries in order and leave the rest, and one more
      advance than there are entries exits. */
  lemma {:induction false} NextDrainsInOrder(s: Session, k: nat)
    requires s.mode == Launch
    ensures k <= |s.playlist| ==>
      var r := NextTimes(s, k);
      && r.Continue?
      && r.session == s.(playlist := s.playlist[k..])
      && Loaded(r.cmds) == s.playlist[..k]
    ensures k > |s.playlist| ==> NextTimes(s, k).Exit?
    decreases k
  {
    if k > 0 {
      if |s.playlist| == 0 {
        assert NextInPlaylist(s) == Exit;
      } else {
        var s1 := s.(playlist := s.playlist[1..]);
        assert NextInPlaylist(s) == Continue(s1, [Stop, Load(s.playlist[0])]);
        NextDrainsInOrder(s1, k - 1);
        if k <= |s.playlist| {
          var r2 := NextTimes(s1, k - 1);
          LoadedAppend([Stop, Load(s.playlist[0])], r2.cmds);
          assert Loaded([Stop, Load(s.playlist[0])]) == [s.playlist[0]];
          assert s1.playlist[k - 1..] == s.playlist[k..];
          assert s.playlist[..k] == [s.playlist[0]] + s1.playlist[..k - 1];
        }
      }
    }
  }

  /** One status event: run the wrapped handler, keep its return value as
      the memo, and advance the queue when it fired. */
  function OnStatus(s: Session, status: Status): (r: Reaction)
    ensures StatusMemo(status, s.memo).None? ==> r == Continue(s.(memo := None), [])
    ensures StatusMemo(status, s.memo).Some? ==>
      r == NextInPlaylist(s.(memo := Some(status)))
    ensures r.Continue? ==> r.session.(playlist := s.playlist, memo := s.memo) == s
  {
    var m := StatusMemo(status, s.memo);
    if m.None? then Continue(s.(memo := None), []) else NextInPlaylist(s.(memo := m))
  }

  /** In launch mode as in any other: once a status has advanced the queue,
      the very next status, whatever it is, sends nothing and clears the
      memo. */
  lemma AdvanceBlocksNextStatus(s: Session, a: Status, b: Status)
    requires OnStatus(s, a).Continue? && OnStatus(s, a).cmds != []
    ensures var s1 := OnStatus(s, a).session;
      OnStatus(s1, b) == Continue(s1.(memo := None), [])
  {
  }

  /** A run of status events, stopping at exit. */
  function OnStatuses(s: Session, statuses: seq<Status>): Reaction
    decreases |statuses|
  {
    if |statuses| == 0 then Continue(s, [])
    else match OnStatus(s, statuses[0])
      case Exit => Exit
      case Continue(s1, c1) =>
        match OnStatuses(s1, statuses[1..])
        case Exit => Exit
        case Continue(s2, c2) => Continue(s2, c1 + c2)
  }

  /** When attached to a running session, statuses never lead to a command
      and the memo the controller keeps is exactly the value threaded by
      `last` through the status handler. */
  lemma {:induction false} AttachedStatusesFollowLast(s: Session, statuses: seq<Status>)
    requires s.mode == Attach
    requires |statuses| > 0
    ensures var outs := Last(StatusMemo, s.memo, statuses);
      OnStatuses(s, statuses) == Continue(s.(memo := outs[|outs| - 1]), [])
    decreases |statuses|
  {
    var m := StatusMemo(statuses[0], s.memo);
    var s1 := s.(memo := m);
    assert OnStatus(s, statuses[0]) == Continue(s1, []);
    if |statuses| > 1 {
      AttachedStatusesFollowLast(s1, statuses[1..]);
      var outs := Last(StatusMemo, s.memo, statuses);
      assert outs == [m] + Last(StatusMemo, m, statuses[1..]);
    }
  }

  // ---------------------------------------------------------------------
  // Transport key presses, guarded by the session's player state

  /** Toggle: pause while playing, play while paused, nothing otherwise. */
  function PlayPause(state: PlayerState): (cmds: seq<Command>)
    ensures cmds == [Pause] <==> state == Playing
    ensures cmds == [Play] <==> state == Paused
    ensures cmds == [] <==> state != Playing && state != Paused
  {
    if state == Playing then [Pause] else if state == Paused then [Play] else []
  }

  /** Play, only from paused. */
  function PlayOnly(state: PlayerState): (cmds: seq<Command>)
    ensures cmds == [Play] <==> state == Paused
    ensures cmds == [] <==> state != Paused
  {
    if state == Paused then [Play] else []
  }

  /** Pause, only from playing. */
  function PauseOnly(state: PlayerState): (cmds: seq<Command>)
    ensures cmds == [Pause] <==> state == Playing
    ensures cmds == [] <==> state != Playing
  {
    if state == Playing then [Pause] else []
  }

  /** The shadow after a volume-affecting call: replaced by the reply when
      the call succeeded, kept otherwise. */
  function Refresh(s: Session, reply: Result<Volume, string>): Session {
    if reply.Success? then s.(volume := Some(reply.value)) else s
  }

  /** Mute toggle: nothing without a shadow; otherwise the inverse of the
      shadow's mute flag, and the shadow follows a successful reply. */
  function ToggleMute(s: Session, reply: Result<Volume, string>): (r: Reaction)
    ensures r.Continue?
    ensures s.volume.None? ==> r == Continue(s, [])
    ensures s.volume.Some? ==> r.cmds == (if s.volume.value.muted then [Unmute] else [Mute])
    ensures s.volume.Some? && reply.Failure? ==> r.session == s
    ensures s.volume.Some? && reply.Success? ==> r.session == s.(volume := Some(reply.value))
  {
    if s.volume.None? then Continue(s, [])
    else if s.volume.value.muted then Continue(Refresh(s, reply), [Unmute])
    else Continue(Refresh(s, reply), [Mute])
  }

  function Min(a: real, b: real): real { if a <= b then a else b }

  function Max(a: real, b: real): real { if a >= b then a else b }

  /** Volume up by one step, capped at 1; nothing without a shadow or at
      the cap. */
  function VolumeUp(s: Session, reply: Result<Volume, string>): (r: Reaction)
    ensures r.Continue?
    ensures r.cmds == [] <==> s.volume.None? || s.volume.value.level >= 1.0
    ensures r.cmds == [] ==> r.session == s
    ensures r.cmds != [] ==>
      var level := s.volume.value.level;
      && |r.cmds| == 1 && r.cmds[0].SetVolume?
      && level < r.cmds[0].level <= 1.0
      && r.cmds[0].level <= level + VolumeStep
      && (r.cmds[0].level == 1.0 || r.cmds[0].level == level + VolumeStep)
      && r.session == Refresh(s, reply)
  {
    if s.volume.None? || s.volume.value.level >= 1.0 then Continue(s, [])
    else Continue(Refresh(s, reply), [SetVolume(Min(s.volume.value.level + VolumeStep, 1.0))])
  }

  /** Volume down by one step, floored at 0; nothing without a shadow or at
      the floor. */
  function VolumeDown(s: Session, reply: Result<Volume, string>): (r: Reaction)
    ensures r.Continue?
    ensures r.cmds == [] <==> s.volume.None? || s.volume.value.level <= 0.0
    ensures r.cmds == [] ==> r.session == s
    ensures r.cmds != [] ==>
      var level := s.volume.value.level;
      && |r.cmds| == 1 && r.cmds[0].SetVolume?
      && 0.0 <= r.cmds[0].level < level
      && level - VolumeStep <= r.cmds[0].level
      && (r.cmds[0].level == 0.0 || r.cmds[0].level == level - VolumeStep)
      && r.session == Refresh(s, reply)
  {
    if s.volume.None? || s.volume.value.level <= 0.0 then Continue(s, [])
    else Continue(Refresh(s, reply), [SetVolume(Max(s.volume.value.level - VolumeStep, 0.0))])
  }

  /** The reply of a receiver that applies the requested level exactly. */
  function Confirm(s: Session, cmds: seq<Command>): Result<Volume, string> {
    if s.volume.Some? && |cmds| == 1 && cmds[0].SetVolume?
    then Success(Volume(cmds[0].level, s.volume.value.muted))
    else Failure("no request")
  }

  /** `n` volume-up presses against a receiver that confirms every request;
      returns the final state and the number of commands sent. */
  function PressUp(s: Session, n: nat): (Session, nat)
    decreases n
  {
    if n == 0 then (s, 0)
    else
      var requested := VolumeUp(s, Failure("unused")).cmds;
      var r := VolumeUp(s, Confirm(s, requested));
      var (s2, k) := PressUp(r.session, n - 1);
      (s2, |r.cmds| + k)
  }

  /** Repeated volume-up presses from any level in [0, 1] end at exactly
      1 once enough presses were made, send at most one command per press,
      and any press after that sends nothing. */
  lemma {:induction false} VolumeUpSettlesAtOne(s: Session, n: nat)
    requires s.volume.Some? && 0.0 <= s.volume.value.level <= 1.0
    requires s.volume.value.level + (n as real) * VolumeStep >= 1.0
    ensures var (s', k) := PressUp(s, n);
      && s'.volume == Some(Volume(1.0, s.volume.value.muted))
      && s'.(volume := s.volume) == s
      && k <= n
      && forall reply :: VolumeUp(s', reply).cmds == []
    decreases n
  {
    var level := s.volume.value.level;
    if n == 0 {
      assert level == 1.0;
    } else {
      var requested := VolumeUp(s, Failure("unused")).cmds;
      var r := VolumeUp(s, Confirm(s, requested));
      if level >= 1.0 {
        assert r.session == s;
      } else {
        assert r.session.volume == Some(Volume(Min(level + VolumeStep, 1.0), s.volume.value.muted));
      }
      VolumeUpSettlesAtOne(r.session, n - 1);
    }
  }

  /** From 0.98, one press requests exactly 1 and the next sends nothing. */
  lemma VolumeUpFromNearTop(s: Session)
    requires s.volume == Some(Volume(0.98, false))
    ensures var r := VolumeUp(s, Success(Volume(1.0, false)));
      && r.cmds == [SetVolume(1.0)]
      && VolumeUp(r.session, Success(Volume(1.0, false))).cmds == []
  {
  }

  /** `n` volume-down presses against a receiver that confirms every
      request; returns the final state and the number of commands sent. */
  function PressDown(s: Session, n: nat): (Session, nat)
    decreases n
  {
    if n == 0 then (s, 0)
    else
      var requested := VolumeDown(s, Failure("unused")).cmds;
      var r := VolumeDown(s, Confirm(s, requested));
      var (s2, k) := PressDown(r.session, n - 1);
      (s2, |r.cmds| + k)
  }

  /** Repeated volume-down presses from any level in [0, 1] end at exactly
      0 once enough presses were made, send at most one command per press,
      and any press after that sends nothing. */
  lemma {:induction false} VolumeDownSettlesAtZero(s: Session, n: nat)
    requires s.volume.Some? && 0.0 <= s.volume.value.level <= 1.0
    requires s.volume.value.level - (n as real) * VolumeStep <= 0.0
    ensures var (s', k) := PressDown(s, n);
      && s'.volume == Some(Volume(0.0, s.volume.value.muted))
      && s'.(volume := s.volume) == s
      && k <= n
      && forall reply :: VolumeDown(s', reply).cmds == []
    decreases n
  {
    var level := s.volume.value.level;
    if n == 0 {
      assert level == 0.0;
    } else {
      var requested := VolumeDown(s, Failure("unused")).cmds;
      var r := VolumeDown(s, Confirm(s, requested));
      if level <= 0.0 {
        assert r.session == s;
      } else {
        assert r.session.volume == Some(Volume(Max(level - VolumeStep, 0.0), s.volume.value.muted));
      }
      VolumeDownSettlesAtZero(r.session, n - 1);
    }
  }

  // ---------------------------------------------------------------------
  // Seeking

  /** The debounced seek callback: nothing for a zero net offset, otherwise
      one absolute seek to the current position (milliseconds) plus the
      offset, in seconds, never before the start. */
  function SeekFlush(offset: int, positionMs: real): (cmds: seq<Command>)
    ensures cmds == [] <==> offset == 0
    ensures cmds != [] ==>
      var target := positionMs / 1000.0 + offset as real;
      && |cmds| == 1 && cmds[0].Seek?
      && cmds[0].seconds >= 0.0
      && cmds[0].seconds >= target
      && (cmds[0].seconds == 0.0 || cmds[0].seconds == target)
  {
    if offset == 0 then []
    else [Seek(Max(0.0, positionMs / 1000.0 + offset as real))]
  }

  datatype Direction = Left | Right

  /** A seek key press adds one signed step to the pending offset. */
  function SeekPress(s: Session, d: Direction): (s': Session)
    ensures s'.(pendingSeek := s.pendingSeek) == s
  {
    s.(pendingSeek := s.pendingSeek + (if d == Left then -SeekStep else SeekStep))
  }

  /** A burst of key presses within the debounce window. */
  function SeekPresses(s: Session, ds: seq<Direction>): Session
    decreases |ds|
  {
    if |ds| == 0 then s else SeekPresses(SeekPress(s, ds[0]), ds[1..])
  }

  /** Signed sum of a burst of presses, in seconds. */
  function NetOffset(ds: seq<Direction>): int
    decreases |ds|
  {
    if |ds| == 0 then 0
    else (if ds[0] == Left then -SeekStep else SeekStep) + NetOffset(ds[1..])
  }

  /** The timer firing: flush the pending offset and reset it. */
  function Flush(s: Session, positionMs: real): (r: Reaction)
    ensures r.Continue? && r.session.(pendingSeek := s.pendingSeek) == s
    ensures r.session.pendingSeek == 0
    ensures r.cmds == [] <==> s.pendingSeek == 0
    ensures r.cmds != [] ==>
      var target := positionMs / 1000.0 + s.pendingSeek as real;
      r.cmds == [Seek(if target >= 0.0 then target else 0.0)]
  {
    Continue(s.(pendingSeek := 0), SeekFlush(s.pendingSeek, positionMs))
  }

  /** A burst of presses accumulates into the pending offset and touches
      nothing else. */
  lemma {:induction false} SeekPressesAccumulate(s: Session, ds: seq<Direction>)
    ensures SeekPresses(s, ds) == s.(pendingSeek := s.pendingSeek + NetOffset(ds))
    decreases |ds|
  {
    if |ds| > 0 {
      SeekPressesAccumulate(SeekPress(s, ds[0]), ds[1..]);
    }
  }

  /** A burst of presses is coalesced into at most one seek command, by the
      net offset; a burst that cancels out sends nothing. */
  lemma SeekBurstCoalesces(s: Session, ds: seq<Direction>, positionMs: real)
    requires s.pendingSeek == 0
    ensures var r := Flush(SeekPresses(s, ds), positionMs);
      && r.session == s
      && |r.cmds| <= 1
      && (r.cmds == [] <==> NetOffset(ds) == 0)
      && r.cmds == SeekFlush(NetOffset(ds), positionMs)
  {
    SeekPressesAccumulate(s, ds);
  }

  /** Three right presses inside one window: a single seek 90 seconds
      ahead of the current position. */
  lemma ThreeRightsSeekNinety(s: Session, positionMs: real)
    requires s.pendingSeek == 0 && positionMs >= 0.0
    ensures Flush(SeekPresses(s, [Right, Right, Right]), positionMs).cmds ==
      [Seek(positionMs / 1000.0 + 90.0)]
  {
    SeekPressesAccumulate(s, [Right, Right, Right]);
    assert NetOffset([Right, Right, Right]) == 90;
  }

  // ---------------------------------------------------------------------
  // `playing` events and the title

  /** A `playing` event: ask for the status (to show the title) and, the
      first time only, seek to the start-up target (in seconds). */
  function OnPlaying(s: Session, seekSeconds: real): (r: Reaction)
    ensures r.Continue? && r.session == s.(seekArmed := false)
    ensures |r.cmds| >= 1 && r.cmds[0] == GetStatus
    ensures r.cmds == [GetStatus, Seek(seekSeconds)] <==> s.seekArmed
    ensures r.cmds == [GetStatus] <==> !s.seekArmed
  {
    Continue(s.(seekArmed := false), [GetStatus] + (if s.seekArmed then [Seek(seekSeconds)] else []))
  }

  /** The start-up seek happens on the first `playing` event at most. */
  lemma InitialSeekAtMostOnce(s: Session, a: real, b: real)
    ensures var r1 := OnPlaying(s, a);
      OnPlaying(r1.session, b).cmds == [GetStatus]
  {
  }

  /** The title line for a status: "artist - title" when the artist is
      known, the title alone otherwise, nothing when there is no title. */
  function Title(status: Option<Status>): (r: Option<string>)
    ensures r.Some? <==>
      && status.Some?
      && status.value.media.Some?
      && status.value.media.value.metadata.Some?
      && Given(status.value.media.value.metadata.value.title)
    ensures r.Some? ==>
      var md := status.value.media.value.metadata.value;
      var t := md.title.value;
      && |t| <= |r.value|
      && r.value[|r.value| - |t|..] == t
      && (r.value == t <==> !Given(md.artist))
      && (Given(md.artist) ==>
            var a := md.artist.value;
            && |r.value| == |a| + 3 + |t|
            && r.value[..|a|] == a
            && r.value[|a|..|a| + 3] == " - ")
  {
    if status.None? || status.value.media.None? || status.value.media.value.metadata.None? then None
    else
      var md := status.value.media.value.metadata.value;
      if !Given(md.title) then None
      else if Given(md.artist) then Some(md.artist.value + " - " + md.title.value)
      else Some(md.title.value)
  }

  // ---------------------------------------------------------------------
  // The returned key-press operations

  datatype Op =
    | PlayPauseOp | PlayOp | PauseOp | ToggleMuteOp | VolumeUpOp | VolumeDownOp
    | NextOp | StopOp | QuitOp | SeekLeftOp | SeekRightOp

  /** One key press. `state` is the player state the session layer last
      reported, `reply` the answer to a volume call if one is made. */
  function Dispatch(s: Session, op: Op, state: PlayerState, reply: Result<Volume, string>): (r: Reaction)
    ensures r.Exit? <==> op == NextOp && s.mode == Launch && |s.playlist| == 0
    ensures r.Continue? ==> |r.cmds| <= 2
    ensures r.Continue? && op in {PlayPauseOp, PlayOp, PauseOp, StopOp, QuitOp} ==> r.session == s
    ensures r.Continue? && op in {PlayPauseOp, PlayOp, PauseOp} ==>
      r.cmds == [] || r.cmds == [Play] || r.cmds == [Pause]
  {
    match op
    case PlayPauseOp => Continue(s, PlayPause(state))
    case PlayOp => Continue(s, PlayOnly(state))
    case PauseOp => Continue(s, PauseOnly(state))
    case ToggleMuteOp => ToggleMute(s, reply)
    case VolumeUpOp => VolumeUp(s, reply)
    case VolumeDownOp => VolumeDown(s, reply)
    case NextOp => NextInPlaylist(s)
    case StopOp => Continue(s, [Stop])
    case QuitOp => Continue(s, [])
    case SeekLeftOp => Continue(SeekPress(s, Left), [])
    case SeekRightOp => Continue(SeekPress(s, Right), [])
  }

  /** Each key press touches only its own part of the state: only `next`
      moves the queue (and only it can exit), only the volume keys touch the
      shadow, only the seek keys touch the pending offset, and none touches
      the mode, the status memo or the start-up seek. Stop is unconditional
      and quit does nothing. */
  lemma DispatchFrame(s: Session, op: Op, state: PlayerState, reply: Result<Volume, string>)
    ensures var r := Dispatch(s, op, state, reply);
      && (r.Exit? ==> op == NextOp)
      && (r.Continue? ==>
            && r.session.mode == s.mode
            && r.session.memo == s.memo
            && r.session.seekArmed == s.seekArmed
            && (op != NextOp ==> r.session.playlist == s.playlist)
            && (op !in {ToggleMuteOp, VolumeUpOp, VolumeDownOp} ==> r.session.volume == s.volume)
            && (op !in {SeekLeftOp, SeekRightOp} ==> r.session.pendingSeek == s.pendingSeek)
            && (op == StopOp ==> r.cmds == [Stop])
            && (op == QuitOp ==> r == Continue(s, []))
            && (op in {SeekLeftOp, SeekRightOp} ==> r.cmds == []))
  {
  }

  /** Before the volume shadow exists, the volume and mute keys send
      nothing and change nothing. */
  lemma NoShadowNoVolumeCommands(s: Session, op: Op, state: PlayerState, reply: Result<Volume, string>)
    requires s.volume.None?
    requires op in {ToggleMuteOp, VolumeUpOp, VolumeDownOp}
    ensures Dispatch(s, op, state, reply) == Continue(s, [])
  {
  }
}
