/** The playback controller: one iteration of the event loop in `app_main`
    as a pure step function. Each pipeline, codec and i2s call the loop makes
    becomes an `Action` in a trace, the volume kept in `player_volume` and the
    track selector are the `Player` state, and what the loop reads from the
    pipeline while handling a message (the i2s writer's element state and the
    decoder's music info) arrives with the event. */
module Controller {
  import opened TrackStream
  import opened TrackSelect

  /** State of the i2s writer element as the loop reads it. The switch names
      four states; every other state is handled by its default branch. */
  datatype ElementState = Init | Running | Paused | Stopped | Finished | OtherState(code: int)

  /** Who sent a message: the MP3 decoder element, another pipeline element,
      or one of the three key peripherals (touch pad, GPIO button, ADC
      button), or some other peripheral. */
  datatype SourceType = DecoderElement | OtherElement | TouchPeriph | ButtonPeriph | AdcButtonPeriph | OtherPeriph

  datatype Command = ReportMusicInfo | TouchTap | ButtonPressed | AdcButtonPressed | OtherCommand

  /** The board's key identifiers, compared against the message data. */
  datatype KeyId = PlayKey | SetKey | ModeKey | VolUpKey | VolDownKey | OtherKey

  datatype Message = Message(source: SourceType, cmd: Command, key: KeyId)

  datatype MusicInfo = MusicInfo(sampleRate: int, bits: int, channels: int)

  /** One wake-up of the loop: the listen call failed, or it delivered a
      message; `writerState` and `decoderInfo` are what the pipeline reports
      while that message is handled. */
  datatype Event =
    | ListenFailed
    | Received(msg: Message, writerState: ElementState, decoderInfo: MusicInfo)

  /** The calls the loop makes (pipeline, codec, i2s, and the track
      selection), in the order it makes them. */
  datatype Action =
    | PipelineRun
    | PipelinePause
    | PipelineResume
    | PipelineStop
    | WaitForStop
    | Terminate
    | ResetRingbuffer
    | ResetElements
    | ChangeStateToInit
    | SelectNextTrack
    | SetWriterInfo(info: MusicInfo)
    | SetClock(sampleRate: int, bits: int, channels: int)
    | SetVolume(level: int)

  /** The loop's own state: `player_volume` and the track selector. */
  datatype Player = Player(volume: int, tracks: Selector)

  /** What handling one event leaves behind; `exit` means the loop breaks. */
  datatype Outcome = Outcome(player: Player, actions: seq<Action>, exit: bool)

  const VolumeStep: int := 10
  const MaxVolume: int := 100
  const MinVolume: int := 0

  predicate InVolumeRange(v: int) {
    MinVolume <= v <= MaxVolume
  }

  predicate IsMusicInfo(msg: Message) {
    msg.source == DecoderElement && msg.cmd == ReportMusicInfo
  }

  /** The key filter: any key peripheral with any press command. */
  predicate IsKeyPress(msg: Message) {
    && (msg.source == TouchPeriph || msg.source == ButtonPeriph || msg.source == AdcButtonPeriph)
    && (msg.cmd == TouchTap || msg.cmd == ButtonPressed || msg.cmd == AdcButtonPressed)
  }

  /** The event is a press of key `k` that reaches the key dispatch. */
  predicate IsKey(ev: Event, k: KeyId) {
    ev.Received? && !IsMusicInfo(ev.msg) && IsKeyPress(ev.msg) && ev.msg.key == k
  }

  predicate IsVolumeKey(ev: Event) {
    IsKey(ev, VolUpKey) || IsKey(ev, VolDownKey)
  }

  /** The events on which the loop moves to the next asset: Mode always,
      Play when the writer has finished. */
  predicate Advances(ev: Event) {
    IsKey(ev, ModeKey) || (IsKey(ev, PlayKey) && ev.writerState == Finished)
  }

  /** The level a single call sets, if it is a `SetVolume`. */
  function Level(a: Action): seq<int> {
    if a.SetVolume? then [a.level] else []
  }

  /** The levels of the `SetVolume` calls in a trace, in order. */
  function VolumeSets(actions: seq<Action>): seq<int> {
    if actions == [] then [] else Level(actions[0]) + VolumeSets(actions[1..])
  }

  lemma {:induction false} VolumeSetsAppend(a: seq<Action>, b: seq<Action>)
    ensures VolumeSets(a + b) == VolumeSets(a) + VolumeSets(b)
    decreases |a|
  {
    if a == [] {
      assert a + b == b;
    } else {
      var ab := a + b;
      assert ab[0] == a[0];
      assert ab[1..] == a[1..] + b;
      VolumeSetsAppend(a[1..], b);
      assert VolumeSets(ab) == Level(a[0]) + VolumeSets(a[1..] + b);
    }
  }

  lemma {:induction false} NoVolumeSets(actions: seq<Action>)
    requires forall i :: 0 <= i < |actions| ==> !actions[i].SetVolume?
    ensures VolumeSets(actions) == []
    decreases |actions|
  {
    if actions != [] {
      NoVolumeSets(actions[1..]);
    }
  }

  /** Start of playback before the loop: select the first asset and run. */
  function Start(assets: Assets, hardwareVolume: int): (o: Outcome)
    ensures o.player.volume == hardwareVolume
    ensures o.player.tracks.marker == Marker(assets.low, 0)
    ensures InRange(o.player.tracks.idx)
    ensures o.actions == [SelectNextTrack, PipelineRun] && !o.exit
  {
    Outcome(Player(hardwareVolume, SelectNext(assets, Boot)), [SelectNextTrack, PipelineRun], false)
  }

  /** The calls of a Play press in FINISHED, in order. */
  const RewindActions: seq<Action> :=
    [ResetRingbuffer, ResetElements, ChangeStateToInit, SelectNextTrack, PipelineRun]

  /** The calls of a Mode press, in order. */
  const RestartActions: seq<Action> :=
    [PipelineStop, WaitForStop, Terminate, ResetRingbuffer, ResetElements, SelectNextTrack, PipelineRun]

  /** The Play key, by the writer's state. */
  function PlayStep(assets: Assets, p: Player, st: ElementState): (o: Outcome)
    ensures !o.exit && o.player.volume == p.volume && VolumeSets(o.actions) == []
    ensures o.player.tracks == (if st == Finished then SelectNext(assets, p.tracks) else p.tracks)
    ensures SelectNextTrack in o.actions <==> st == Finished
    ensures st == Init ==> o.actions == [PipelineRun]
    ensures st == Running ==> o.actions == [PipelinePause]
    ensures st == Paused ==> o.actions == [PipelineResume]
    ensures st == Finished ==> o.actions == RewindActions
    ensures !HasPlayEdge(st) ==> o == Outcome(p, [], false)
  {
    var o := match st
      case Init => Outcome(p, [PipelineRun], false)
      case Running => Outcome(p, [PipelinePause], false)
      case Paused => Outcome(p, [PipelineResume], false)
      case Finished =>
        Outcome(p.(tracks := SelectNext(assets, p.tracks)), RewindActions, false)
      case _ => Outcome(p, [], false);
    NoVolumeSets(o.actions);
    o
  }

  /** The Mode key: stop and tear down, select the next asset, run again. */
  function ModeStep(assets: Assets, p: Player): (o: Outcome)
    ensures !o.exit && o.player.volume == p.volume && VolumeSets(o.actions) == []
    ensures o.player.tracks == SelectNext(assets, p.tracks)
    ensures SelectNextTrack in o.actions
    ensures o.actions == RestartActions
  {
    NoVolumeSets(RestartActions);
    Outcome(p.(tracks := SelectNext(assets, p.tracks)), RestartActions, false)
  }

  /** The key dispatch, checked in the loop's order. */
  function KeyStep(assets: Assets, p: Player, key: KeyId, st: ElementState): (o: Outcome)
    ensures o.exit <==> key == SetKey
    ensures o.exit ==> o.player == p && o.actions == []
    ensures o.player.tracks
         == (if key == ModeKey || (key == PlayKey && st == Finished) then SelectNext(assets, p.tracks) else p.tracks)
    ensures SelectNextTrack in o.actions <==> key == ModeKey || (key == PlayKey && st == Finished)
    ensures VolumeSets(o.actions) == (if (key == VolUpKey || key == VolDownKey) then [o.player.volume] else [])
    ensures !((key == VolUpKey || key == VolDownKey)) ==> o.player.volume == p.volume
    ensures key == PlayKey ==> o == PlayStep(assets, p, st)
    ensures key == ModeKey ==> o == ModeStep(assets, p)
    ensures key == VolUpKey
        ==> o == Outcome(p.(volume := Min(p.volume + VolumeStep, MaxVolume)), [SetVolume(o.player.volume)], false)
    ensures key == VolDownKey
        ==> o == Outcome(p.(volume := Max(p.volume - VolumeStep, MinVolume)), [SetVolume(o.player.volume)], false)
    ensures key == OtherKey ==> o == Outcome(p, [], false)
  {
    match key
    case PlayKey => PlayStep(assets, p, st)
    case SetKey => Outcome(p, [], true)
    case ModeKey => ModeStep(assets, p)
    case VolUpKey =>
      var v := if p.volume + VolumeStep > MaxVolume then MaxVolume else p.volume + VolumeStep;
      Outcome(p.(volume := v), [SetVolume(v)], false)
    case VolDownKey =>
      var v := if p.volume - VolumeStep < MinVolume then MinVolume else p.volume - VolumeStep;
      Outcome(p.(volume := v), [SetVolume(v)], false)
    case OtherKey => Outcome(p, [], false)
  }

  /** One iteration of the event loop. */
  function Step(assets: Assets, p: Player, ev: Event): (o: Outcome)
    ensures o.exit <==> IsKey(ev, SetKey)
    ensures o.exit ==> o.player == p && o.actions == []
    ensures o.player.tracks == (if Advances(ev) then SelectNext(assets, p.tracks) else p.tracks)
    ensures SelectNextTrack in o.actions <==> Advances(ev)
    ensures VolumeSets(o.actions) == (if IsVolumeKey(ev) then [o.player.volume] else [])
    ensures !IsVolumeKey(ev) ==> o.player.volume == p.volume
    ensures IsKey(ev, VolUpKey) ==> o.player.volume == Min(p.volume + VolumeStep, MaxVolume)
    ensures IsKey(ev, VolDownKey) ==> o.player.volume == Max(p.volume - VolumeStep, MinVolume)
    ensures IsVolumeKey(ev) ==> o.actions == [SetVolume(o.player.volume)] && o.player.tracks == p.tracks
    ensures IsKey(ev, PlayKey) ==> o == PlayStep(assets, p, ev.writerState)
    ensures InVolumeRange(p.volume) ==> InVolumeRange(o.player.volume)
  {
    match ev
    case ListenFailed => Outcome(p, [], false)
    case Received(msg, st, info) =>
      if IsMusicInfo(msg) then
        var acts := [SetWriterInfo(info), SetClock(info.sampleRate, info.bits, info.channels)];
        NoVolumeSets(acts);
        Outcome(p, acts, false)
      else if IsKeyPress(msg) then
        KeyStep(assets, p, msg.key, st)
      else
        Outcome(p, [], false)
  }

  /** The loop over a sequence of events, stopping at the first that breaks
      out of it; events after that one are never looked at. */
  function Run(assets: Assets, p: Player, events: seq<Event>): (r: Outcome)
    ensures r.exit <==> !NoSetKey(events)
    decreases |events|
  {
    if events == [] then
      Outcome(p, [], false)
    else
      var o := Step(assets, p, events[0]);
      if o.exit then o
      else
        var rest := Run(assets, o.player, events[1..]);
        assert NoSetKey(events) <==> NoSetKey(events[1..]) by {
          assert events == [events[0]] + events[1..];
        }
        Outcome(rest.player, o.actions + rest.actions, rest.exit)
  }

  /** Set breaks out of the loop: a run that meets its first Set press ends
      there, with the state and calls of the events before it. */
  lemma {:induction false} RunStopsAtSet(assets: Assets, p: Player, pre: seq<Event>, ev: Event, post: seq<Event>)
    requires NoSetKey(pre) && IsKey(ev, SetKey)
    ensures Run(assets, p, pre + [ev] + post)
         == Outcome(Run(assets, p, pre).player, Run(assets, p, pre).actions, true)
    decreases |pre|
  {
    var events := pre + [ev] + post;
    if pre == [] {
      assert events[0] == ev;
    } else {
      var o := Step(assets, p, pre[0]);
      assert events[0] == pre[0];
      assert !IsKey(pre[0], SetKey);
      assert events[1..] == pre[1..] + [ev] + post;
      assert NoSetKey(pre[1..]);
      RunStopsAtSet(assets, o.player, pre[1..], ev, post);
    }
  }

  /** A key press reaches the key dispatch with the writer's state. */
  lemma KeyDispatch(assets: Assets, p: Player, ev: Event)
    requires ev.Received? && !IsMusicInfo(ev.msg) && IsKeyPress(ev.msg)
    ensures Step(assets, p, ev) == KeyStep(assets, p, ev.msg.key, ev.writerState)
  {
  }

  /** Events that reach neither branch of the loop: failed listens, messages
      from other sources or with other commands, and unknown keys. */
  lemma IgnoredEvents(assets: Assets, p: Player, ev: Event)
    requires
      || ev.ListenFailed?
      || (!IsMusicInfo(ev.msg) && !IsKeyPress(ev.msg))
      || IsKey(ev, OtherKey)
    ensures Step(assets, p, ev) == Outcome(p, [], false)
  {
  }

  /** The decoder's music-info report copies sample rate, bits and channels
      into the i2s writer and its clock, and changes nothing else. */
  lemma MusicInfoConfiguresWriter(assets: Assets, p: Player, ev: Event)
    requires ev.Received? && IsMusicInfo(ev.msg)
    ensures Step(assets, p, ev).player == p && !Step(assets, p, ev).exit
    ensures Step(assets, p, ev).actions
         == [SetWriterInfo(ev.decoderInfo),
             SetClock(ev.decoderInfo.sampleRate, ev.decoderInfo.bits, ev.decoderInfo.channels)]
  {
  }

  /** Mode stops and tears down the run, selects the next asset with the
      cursor at 0, and runs again, whatever state the writer was in. */
  lemma ModeRestartsOnNextTrack(assets: Assets, p: Player, ev: Event)
    requires IsKey(ev, ModeKey)
    requires InRange(p.tracks.idx)
    ensures Step(assets, p, ev).actions
         == [PipelineStop, WaitForStop, Terminate, ResetRingbuffer, ResetElements, SelectNextTrack, PipelineRun]
    ensures Step(assets, p, ev).player.tracks.marker
         == Marker(Track(assets, RateAt(p.tracks.idx)), 0)
    ensures Step(assets, p, ev).player.volume == p.volume
    ensures ApplyAll(ev.writerState, Step(assets, p, ev).actions) == Running
  {
    KeyDispatch(assets, p, ev);
    var o := ModeStep(assets, p);
    assert Step(assets, p, ev) == o;
    assert o.actions == RestartActions;
    RestartEndsRunning(ev.writerState);
  }

  /** A Play press in the finished state "rewinds" by moving on to the NEXT
      asset, cursor at 0, not by replaying the one that finished. */
  lemma FinishedPlayAdvances(assets: Assets, p: Player, ev: Event)
    requires IsKey(ev, PlayKey) && ev.writerState == Finished
    requires InRange(p.tracks.idx)
    ensures Step(assets, p, ev).actions
         == [ResetRingbuffer, ResetElements, ChangeStateToInit, SelectNextTrack, PipelineRun]
    ensures Step(assets, p, ev).player.tracks.marker
         == Marker(Track(assets, RateAt(p.tracks.idx)), 0)
    ensures Step(assets, p, ev).player.tracks.idx != p.tracks.idx
  {
  }

  /** Over any event sequence the volume stays in [0, 100] if it started
      there, and the selector index stays inside the switch's cases. */
  lemma {:induction false} RunKeepsInvariants(assets: Assets, p: Player, events: seq<Event>)
    requires InVolumeRange(p.volume) && InRange(p.tracks.idx)
    ensures InVolumeRange(Run(assets, p, events).player.volume)
    ensures InRange(Run(assets, p, events).player.tracks.idx)
    decreases |events|
  {
    if events != [] {
      var o := Step(assets, p, events[0]);
      if !o.exit {
        RunKeepsInvariants(assets, o.player, events[1..]);
      }
    }
  }

  function VolumeEventCount(events: seq<Event>): nat {
    if events == [] then 0
    else (if IsVolumeKey(events[0]) then 1 else 0) + VolumeEventCount(events[1..])
  }

  predicate NoSetKey(events: seq<Event>) {
    forall i :: 0 <= i < |events| ==> !IsKey(events[i], SetKey)
  }

  /** Without a Set press the loop handles every event, makes exactly one
      `set_volume` call per volume event, and the last call (if any) carries
      the volume the loop ends with. */
  lemma {:induction false} OneSetVolumePerVolumeEvent(assets: Assets, p: Player, events: seq<Event>)
    requires NoSetKey(events)
    ensures !Run(assets, p, events).exit
    ensures |VolumeSets(Run(assets, p, events).actions)| == VolumeEventCount(events)
    ensures VolumeSets(Run(assets, p, events).actions) != []
        ==> VolumeSets(Run(assets, p, events).actions)[|VolumeSets(Run(assets, p, events).actions)| - 1]
            == Run(assets, p, events).player.volume
    ensures VolumeSets(Run(assets, p, events).actions) == [] ==> Run(assets, p, events).player.volume == p.volume
    decreases |events|
  {
    if events != [] {
      var o := Step(assets, p, events[0]);
      var rest := Run(assets, o.player, events[1..]);
      assert !IsKey(events[0], SetKey);
      OneSetVolumePerVolumeEvent(assets, o.player, events[1..]);
      VolumeSetsAppend(o.actions, rest.actions);
    }
  }

  /** Set breaks out of the loop: once a run has exited, further events
      change nothing. */
  lemma {:induction false} ExitIgnoresLaterEvents(assets: Assets, p: Player, events: seq<Event>, later: seq<Event>)
    requires Run(assets, p, events).exit
    ensures Run(assets, p, events + later) == Run(assets, p, events)
    decreases |events|
  {
    var o := Step(assets, p, events[0]);
    assert (events + later)[0] == events[0];
    if !o.exit {
      assert (events + later)[1..] == events[1..] + later;
      ExitIgnoresLaterEvents(assets, o.player, events[1..], later);
    }
  }

  /** The lifecycle edges the controller relies on: what each pipeline call
      does to the writer's state. This is the reference the Play table is
      checked against, not a model of the pipeline's internals. */
  function Apply(st: ElementState, a: Action): ElementState {
    match a
    case PipelineRun => Running
    case PipelinePause => if st == Running then Paused else st
    case PipelineResume => if st == Paused then Running else st
    case PipelineStop => Stopped
    case ChangeStateToInit => Init
    case _ => st
  }

  function ApplyAll(st: ElementState, actions: seq<Action>): ElementState
    decreases |actions|
  {
    if actions == [] then st else ApplyAll(Apply(st, actions[0]), actions[1..])
  }

  /** Whatever came before, a trace that ends with a run leaves the writer
      running. */
  lemma {:induction false} RunEndsRunning(st: ElementState, actions: seq<Action>)
    ensures ApplyAll(st, actions + [PipelineRun]) == Running
    decreases |actions|
  {
    if actions == [] {
      assert [] + [PipelineRun] == [PipelineRun];
    } else {
      assert (actions + [PipelineRun])[1..] == actions[1..] + [PipelineRun];
      RunEndsRunning(Apply(st, actions[0]), actions[1..]);
    }
  }

  /** The Play transition table: Init -> Running, Running -> Paused,
      Paused -> Running, Finished -> Init -> Running; any other state is
      left alone. */
  function PlayTarget(st: ElementState): ElementState {
    match st
    case Init => Running
    case Running => Paused
    case Paused => Running
    case Finished => Running
    case _ => st
  }

  /** The states the Play switch names. */
  predicate HasPlayEdge(st: ElementState) {
    st.Init? || st.Running? || st.Paused? || st.Finished?
  }

  /** Mode leaves the writer running whatever state it was in. */
  lemma RestartEndsRunning(st: ElementState)
    ensures ApplyAll(st, RestartActions) == Running
  {
    var teardown := [PipelineStop, WaitForStop, Terminate, ResetRingbuffer, ResetElements, SelectNextTrack];
    assert RestartActions == teardown + [PipelineRun];
    RunEndsRunning(st, teardown);
  }

  /** Play in FINISHED goes back to Init before it runs again. */
  lemma FinishedPassesThroughInit()
    ensures ApplyAll(Finished, RewindActions[..3]) == Init
    ensures ApplyAll(Finished, RewindActions) == Running
  {
    var prefix := [ResetRingbuffer, ResetElements, ChangeStateToInit];
    assert RewindActions[..3] == prefix;
    assert ApplyAll(Finished, prefix) == ApplyAll(Finished, [ResetElements, ChangeStateToInit]);
    assert ApplyAll(Finished, [ResetElements, ChangeStateToInit]) == ApplyAll(Finished, [ChangeStateToInit]);
    assert ApplyAll(Finished, [ChangeStateToInit]) == ApplyAll(Init, []);
    assert RewindActions == prefix + [SelectNextTrack] + [PipelineRun];
    RunEndsRunning(Finished, prefix + [SelectNextTrack]);
  }

  /** The Play table on the Play branch itself. */
  lemma PlayStepFollowsTable(assets: Assets, p: Player, st: ElementState)
    ensures ApplyAll(st, PlayStep(assets, p, st).actions) == PlayTarget(st)
    ensures st == Finished ==> ApplyAll(Finished, PlayStep(assets, p, st).actions[..3]) == Init
    ensures !HasPlayEdge(st) ==> PlayStep(assets, p, st) == Outcome(p, [], false)
  {
    var acts := PlayStep(assets, p, st).actions;
    match st
    case Init =>
      assert acts == [] + [PipelineRun];
      RunEndsRunning(Init, []);
    case Running =>
      assert acts == [PipelinePause];
      assert ApplyAll(Running, acts) == ApplyAll(Paused, []);
    case Paused =>
      assert acts == [PipelineResume];
      assert ApplyAll(Paused, acts) == ApplyAll(Running, []);
    case Finished =>
      assert acts == RewindActions;
      FinishedPassesThroughInit();
    case _ =>
  }

  /** The calls a Play press makes take the writer along the Play table, the
      finished case passing through Init, and an unsupported state gets no
      call at all. */
  lemma PlayFollowsTable(assets: Assets, p: Player, ev: Event)
    requires IsKey(ev, PlayKey)
    ensures ApplyAll(ev.writerState, Step(assets, p, ev).actions) == PlayTarget(ev.writerState)
    ensures ev.writerState == Finished
        ==> ApplyAll(Finished, Step(assets, p, ev).actions[..3]) == Init
    ensures !HasPlayEdge(ev.writerState)
        ==> Step(assets, p, ev) == Outcome(p, [], false)
  {
    KeyDispatch(assets, p, ev);
    PlayStepFollowsTable(assets, p, ev.writerState);
  }

  /** Play presses fed back through the lifecycle edges: the writer state
      after each press is the one the press's calls lead to. Each press is
      handled as `Step` handles it (`KeyDispatch`). */
  function PlayPresses(assets: Assets, p: Player, st: ElementState, n: nat): ElementState
    decreases n
  {
    if n == 0 then st
    else
      var o := KeyStep(assets, p, PlayKey, st);
      PlayPresses(assets, o.player, ApplyAll(st, o.actions), n - 1)
  }

  /** Once running, Play presses toggle between Running and Paused. */
  lemma {:induction false} PlayPressesToggle(assets: Assets, p: Player, st: ElementState, n: nat)
    requires st == Running || st == Paused
    ensures PlayPresses(assets, p, st, n)
         == (if n % 2 == 0 then st else if st == Running then Paused else Running)
    decreases n
  {
    if n > 0 {
      var o := PlayStep(assets, p, st);
      assert KeyStep(assets, p, PlayKey, st) == o;
      var next := if st == Running then Paused else Running;
      assert o.actions == (if st == Running then [PipelinePause] else [PipelineResume]);
      assert ApplyAll(st, o.actions) == next;
      assert PlayPresses(assets, p, st, n) == PlayPresses(assets, o.player, next, n - 1);
      PlayPressesToggle(assets, o.player, next, n - 1);
    }
  }

  /** From Init, Play presses alternate Running, Paused, Running, ... */
  lemma PlayPressesAlternate(assets: Assets, p: Player, n: nat)
    ensures PlayPresses(assets, p, Init, n)
         == (if n == 0 then Init else if n % 2 == 1 then Running else Paused)
  {
    if n > 0 {
      var o := PlayStep(assets, p, Init);
      assert KeyStep(assets, p, PlayKey, Init) == o;
      assert o.actions == [PipelineRun];
      assert ApplyAll(Init, o.actions) == Running;
      assert PlayPresses(assets, p, Init, n) == PlayPresses(assets, o.player, Running, n - 1);
      PlayPressesToggle(assets, o.player, Running, n - 1);
    }
  }
}
